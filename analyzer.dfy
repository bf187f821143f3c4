/**
  The orchestrator `AnalyzerService` (src/services/analyzer.py): clean every
  comment, classify the ones whose cleaned text is valid in one batch, merge
  the answers back by position, and aggregate a report. The call runs
  synchronously here; the clock reading is the parameter `elapsedMs`.
*/
module Analyzer {
  import opened Wrappers
  import opened PyStr
  import opened Rounding
  import opened Indexing
  import opened Preprocessing
  import opened Sentiment

  /** A fetched comment. `text` is `None` when the record has no "text" key. */
  datatype Comment = Comment(author: string, text: Option<Text>, likeCount: int,
                             publishedAt: string, updatedAt: string)

  /** `comment.copy()` with the three keys the pipeline adds. */
  datatype EnrichedComment =
    EnrichedComment(comment: Comment, cleanedText: string, sentiment: string, confidence: real)

  /** Percentages of the three labels. */
  datatype Distribution = Distribution(positive: real, negative: real, neutral: real)

  /** The dictionary `analyze_comments` returns. */
  datatype Report = Report(videoId: string, totalComments: nat, validComments: nat,
                           distribution: Distribution, overallSentiment: string,
                           averageConfidence: real, comments: seq<EnrichedComment>,
                           processingTimeMs: int)

  /** `comment.get("text", "")` */
  function TextOf(c: Comment): Text {
    if c.text.Some? then c.text.value else Str("")
  }

  /** `is_valid` on a cleaned text. */
  predicate Usable(s: string) {
    IsValid(Str(s))
  }

  // ---------------------------------------------------------------------------
  // The three stages as functions of the input

  /** `cleaned_texts`: every comment's text through `clean`, in order. */
  function CleanedTexts(comments: seq<Comment>, demojize: string -> string): (r: seq<string>)
    ensures |r| == |comments|
    ensures forall i :: 0 <= i < |r| ==> |Split(r[i])| <= Preprocessing.MaxWords
  {
    seq(|comments|, i requires 0 <= i < |comments| => Clean(TextOf(comments[i]), demojize))
  }

  /** `valid_texts`: the usable cleaned texts in their original order. */
  function ValidTexts(cleaned: seq<string>): (r: seq<string>)
    ensures |r| == |Positions(cleaned, Usable)|
    ensures forall j :: 0 <= j < |r| ==> Usable(r[j])
  {
    var valid := Positions(cleaned, Usable);
    seq(|valid|, j requires 0 <= j < |valid| => cleaned[valid[j]])
  }

  /** The strings as Python values handed to `analyze_batch`. */
  function AsTexts(ss: seq<string>): (r: seq<Text>)
    ensures |r| == |ss| && forall j :: 0 <= j < |ss| ==> r[j] == Str(ss[j])
  {
    seq(|ss|, j requires 0 <= j < |ss| => Str(ss[j]))
  }

  /** `sentiments`: the batch classifier's answers, or none when there is
      nothing valid (the classifier is then not called). */
  function Sentiments(validTexts: seq<string>, model: Model): seq<SentimentResult> {
    if validTexts == [] then [] else BatchResults(AsTexts(validTexts), model)
  }

  /** Entry `i` of `enriched_comments`: the comment itself, its cleaned text,
      and the sentiment whose ordinal is the number of usable texts before it
      when it is usable and that sentiment exists; neutral with 0.0 otherwise. */
  function EnrichedAt(comments: seq<Comment>, cleaned: seq<string>, sentiments: seq<SentimentResult>,
                      i: nat): EnrichedComment
    requires |cleaned| == |comments| && i < |comments|
  {
    var rank := |Positions(cleaned[..i], Usable)|;
    if Usable(cleaned[i]) && rank < |sentiments|
    then EnrichedComment(comments[i], cleaned[i], sentiments[rank].labelName, sentiments[rank].confidence)
    else EnrichedComment(comments[i], cleaned[i], NeutralLabel, 0.0)
  }

  function Enrich(comments: seq<Comment>, cleaned: seq<string>, sentiments: seq<SentimentResult>)
    : (r: seq<EnrichedComment>)
    requires |cleaned| == |comments|
    ensures |r| == |comments|
  {
    seq(|comments|, i requires 0 <= i < |comments| => EnrichedAt(comments, cleaned, sentiments, i))
  }

  // ---------------------------------------------------------------------------
  // Aggregation

  /** Whether a comment carries the label `name`. */
  function Labelled(name: string): EnrichedComment -> bool {
    (c: EnrichedComment) => c.sentiment == name
  }

  /** How many comments carry `label`: the number of positions whose label
      is `name`. */
  function CountLabel(cs: seq<EnrichedComment>, name: string): (n: nat)
    ensures n <= |cs|
    ensures n == |Passing(cs, Labelled(name))|
  {
    if cs == [] then 0
    else
      PassingFront(cs, Labelled(name));
      (if cs[0].sentiment == name then 1 else 0) + CountLabel(cs[1..], name)
  }

  /** The exact percentage of comments carrying `label`. */
  function Share(cs: seq<EnrichedComment>, name: string): real
    requires |cs| > 0
  {
    CountLabel(cs, name) as real / |cs| as real * 100.0
  }

  predicate KnownLabel(name: string) {
    name == PositiveLabel || name == NegativeLabel || name == NeutralLabel
  }

  predicate KnownLabels(cs: seq<EnrichedComment>) {
    forall i :: 0 <= i < |cs| ==> KnownLabel(cs[i].sentiment)
  }

  /** `_calculate_distribution`: all zeros for no comments; otherwise each
      label's share rounded to two places, each a percentage. */
  function ComputeDistribution(cs: seq<EnrichedComment>): (d: Distribution)
    ensures |cs| == 0 ==> d == Distribution(0.0, 0.0, 0.0)
    ensures |cs| > 0 ==>
      && -0.005 <= d.positive - Share(cs, PositiveLabel) <= 0.005
      && -0.005 <= d.negative - Share(cs, NegativeLabel) <= 0.005
      && -0.005 <= d.neutral - Share(cs, NeutralLabel) <= 0.005
    ensures 0.0 <= d.positive <= 100.0 && 0.0 <= d.negative <= 100.0 && 0.0 <= d.neutral <= 100.0
  {
    if |cs| == 0 then Distribution(0.0, 0.0, 0.0)
    else
      ShareIsPercentage(cs, PositiveLabel);
      ShareIsPercentage(cs, NegativeLabel);
      ShareIsPercentage(cs, NeutralLabel);
      Distribution(Round2(Share(cs, PositiveLabel)), Round2(Share(cs, NegativeLabel)),
                   Round2(Share(cs, NeutralLabel)))
  }

  lemma ShareIsPercentage(cs: seq<EnrichedComment>, name: string)
    requires |cs| > 0
    ensures 0.0 <= Share(cs, name) <= 100.0
  {
    var n := CountLabel(cs, name) as real;
    var total := |cs| as real;
    assert n / total <= 1.0 by {
      assert n <= total;
      assert n / total <= total / total;
    }
  }

  /** When every label is one of the three, the counts partition the
      comments. */
  lemma {:induction false} CountsPartition(cs: seq<EnrichedComment>)
    requires KnownLabels(cs)
    ensures CountLabel(cs, PositiveLabel) + CountLabel(cs, NegativeLabel) + CountLabel(cs, NeutralLabel) == |cs|
  {
    if cs != [] {
      assert KnownLabels(cs[1..]) by {
        forall i | 0 <= i < |cs[1..]| ensures cs[1..][i] == cs[i + 1] { }
      }
      CountsPartition(cs[1..]);
    }
  }

  /** The exact shares add up to 100, so the rounded ones are within 0.015
      of 100. */
  lemma DistributionSumsTo100(cs: seq<EnrichedComment>)
    requires |cs| > 0 && KnownLabels(cs)
    ensures Share(cs, PositiveLabel) + Share(cs, NegativeLabel) + Share(cs, NeutralLabel) == 100.0
    ensures var d := ComputeDistribution(cs);
      -0.015 <= d.positive + d.negative + d.neutral - 100.0 <= 0.015
  {
    CountsPartition(cs);
    SharesOfPartition(CountLabel(cs, PositiveLabel) as real, CountLabel(cs, NegativeLabel) as real,
                      CountLabel(cs, NeutralLabel) as real, |cs| as real);
  }

  lemma SharesOfPartition(p: real, n: real, u: real, total: real)
    requires total > 0.0 && p + n + u == total
    ensures p / total * 100.0 + n / total * 100.0 + u / total * 100.0 == 100.0
  {
    assert p / total + n / total + u / total == (p + n + u) / total;
  }

  /** A part of a positive whole is a fraction in [0, 1]. */
  lemma FractionAtMostOne(a: real, c: real)
    requires 0.0 <= a <= c && c > 0.0
    ensures 0.0 <= a / c <= 1.0
  {
    var q := a / c;
    assert q * c == a;
    assert (1.0 - q) * c == c - a;
  }

  function Max(a: real, b: real): real {
    if a >= b then a else b
  }

  /** `_get_overall_sentiment`: the labels holding the maximum, in the order
      positive, negative, neutral; neutral when more than one holds it or
      neutral is among them. So a label wins exactly when it is strictly
      ahead of both others, and ties go to neutral. */
  function Overall(d: Distribution): (r: string)
    ensures r == PositiveLabel <==> d.positive > d.negative && d.positive > d.neutral
    ensures r == NegativeLabel <==> d.negative > d.positive && d.negative > d.neutral
    ensures r == NeutralLabel <==>
      (!(d.positive > d.negative && d.positive > d.neutral) && !(d.negative > d.positive && d.negative > d.neutral))
  {
    var maxVal := Max(Max(d.positive, d.negative), d.neutral);
    var winners := (if d.positive == maxVal then [PositiveLabel] else [])
                 + (if d.negative == maxVal then [NegativeLabel] else [])
                 + (if d.neutral == maxVal then [NeutralLabel] else []);
    if |winners| > 1 || NeutralLabel in winners then NeutralLabel else winners[0]
  }

  /** Two counts that differ by at least one comment give shares more than
      0.01 apart while there are fewer than 10000 comments. */
  lemma ShareGap(a: nat, b: nat, total: nat)
    requires 0 < total < 10000 && b < a
    ensures a as real / total as real * 100.0 - b as real / total as real * 100.0 > 0.01
  {
    var t := total as real;
    assert a as real / t - b as real / t == (a - b) as real / t;
    assert (a - b) as real / t >= 1.0 / t;
    assert 1.0 / t > 0.0001 by {
      assert 0.0001 * t < 1.0;
    }
  }

  /** The verdict follows the counts. A label strictly ahead of both others
      wins while there are fewer than 10000 comments; a neutral count at
      least as large as the others, or a positive/negative tie, always
      gives neutral. */
  lemma VerdictFollowsCounts(cs: seq<EnrichedComment>)
    requires |cs| > 0
    ensures var p, n, u := CountLabel(cs, PositiveLabel), CountLabel(cs, NegativeLabel), CountLabel(cs, NeutralLabel);
      && (|cs| < 10000 && p > n && p > u ==> Overall(ComputeDistribution(cs)) == PositiveLabel)
      && (|cs| < 10000 && n > p && n > u ==> Overall(ComputeDistribution(cs)) == NegativeLabel)
      && (u >= p && u >= n ==> Overall(ComputeDistribution(cs)) == NeutralLabel)
      && (p == n ==> Overall(ComputeDistribution(cs)) == NeutralLabel)
  {
    var sp, sn, su := Share(cs, PositiveLabel), Share(cs, NegativeLabel), Share(cs, NeutralLabel);
    assert ComputeDistribution(cs) == Distribution(Round2(sp), Round2(sn), Round2(su));
    VerdictOfShares(CountLabel(cs, PositiveLabel), CountLabel(cs, NegativeLabel), CountLabel(cs, NeutralLabel),
                    |cs|, sp, sn, su);
  }

  /** `VerdictFollowsCounts` on the three counts and their shares alone. */
  lemma VerdictOfShares(p: nat, n: nat, u: nat, total: nat, sp: real, sn: real, su: real)
    requires total > 0
    requires sp == p as real / total as real * 100.0
    requires sn == n as real / total as real * 100.0
    requires su == u as real / total as real * 100.0
    ensures var d := Distribution(Round2(sp), Round2(sn), Round2(su));
      && (total < 10000 && p > n && p > u ==> Overall(d) == PositiveLabel)
      && (total < 10000 && n > p && n > u ==> Overall(d) == NegativeLabel)
      && (u >= p && u >= n ==> Overall(d) == NeutralLabel)
      && (p == n ==> Overall(d) == NeutralLabel)
  {
    if total < 10000 {
      if p > n { ShareGap(p, n, total); }
      if p > u { ShareGap(p, u, total); }
      if n > p { ShareGap(n, p, total); }
      if n > u { ShareGap(n, u, total); }
    }
    if u >= p { ShareOrder(p, u, total); Round2Monotone(sp, su); }
    if u >= n { ShareOrder(n, u, total); Round2Monotone(sn, su); }
  }

  lemma ShareOrder(a: nat, b: nat, total: nat)
    requires total > 0 && a <= b
    ensures a as real / total as real * 100.0 <= b as real / total as real * 100.0
  {
  }

  /** At 50000 comments (the largest batch a request may ask for) a strict
      lead can vanish in rounding: 16669 positive, 16668 negative and 16663
      neutral give 33.34, 33.34 and 33.33, so the verdict is neutral. */
  lemma RoundingCanHideLead()
    ensures var d := Distribution(Round2(16669.0 / 50000.0 * 100.0), Round2(16668.0 / 50000.0 * 100.0),
                                  Round2(16663.0 / 50000.0 * 100.0));
      d == Distribution(33.34, 33.34, 33.33) && Overall(d) == NeutralLabel
  {
    assert (16669.0 / 50000.0 * 100.0 * 100.0).Floor == 3333;
    assert (16668.0 / 50000.0 * 100.0 * 100.0).Floor == 3333;
    assert (16663.0 / 50000.0 * 100.0 * 100.0).Floor == 3332;
  }

  /** Whether a comment was analysed: its confidence is above 0. */
  predicate Analyzed(c: EnrichedComment) {
    c.confidence > 0.0
  }

  /** How many comments have a confidence above 0: the number of positions
      whose confidence is positive. */
  function AnalyzedCount(cs: seq<EnrichedComment>): (n: nat)
    ensures n <= |cs|
    ensures n == |Passing(cs, Analyzed)|
  {
    if cs == [] then 0
    else
      PassingFront(cs, Analyzed);
      (if cs[0].confidence > 0.0 then 1 else 0) + AnalyzedCount(cs[1..])
  }

  /** The sum of the confidences above 0: itself above 0 exactly when there
      is at least one, and at most their number when none exceeds 1. */
  function AnalyzedSum(cs: seq<EnrichedComment>): (s: real)
    ensures s >= 0.0
    ensures s > 0.0 <==> AnalyzedCount(cs) > 0
    ensures (forall i :: 0 <= i < |cs| ==> cs[i].confidence <= 1.0) ==> s <= AnalyzedCount(cs) as real
  {
    if cs == [] then 0.0
    else
      assert forall i :: 0 <= i < |cs[1..]| ==> cs[1..][i] == cs[i + 1];
      (if cs[0].confidence > 0.0 then cs[0].confidence else 0.0) + AnalyzedSum(cs[1..])
  }

  /** `_calculate_avg_confidence`: 0.0 when no comment was analysed;
      otherwise the mean over the confidences above 0, rounded to four
      places, which lies in [0, 1] when every confidence is at most 1. */
  function AverageConfidence(cs: seq<EnrichedComment>): (r: real)
    ensures AnalyzedCount(cs) == 0 ==> r == 0.0
    ensures AnalyzedCount(cs) > 0 ==>
      -0.00005 <= r - AnalyzedSum(cs) / AnalyzedCount(cs) as real <= 0.00005
    ensures (forall i :: 0 <= i < |cs| ==> cs[i].confidence <= 1.0) ==> 0.0 <= r <= 1.0
  {
    var n := AnalyzedCount(cs);
    if n == 0 then 0.0
    else
      MeanInUnit(cs);
      Round4(AnalyzedSum(cs) / n as real)
  }

  /** The mean of the confidences above 0 is positive, and at most 1 when
      every confidence is. */
  lemma MeanInUnit(cs: seq<EnrichedComment>)
    requires AnalyzedCount(cs) > 0
    ensures 0.0 <= AnalyzedSum(cs) / AnalyzedCount(cs) as real
    ensures (forall i :: 0 <= i < |cs| ==> cs[i].confidence <= 1.0) ==>
      AnalyzedSum(cs) / AnalyzedCount(cs) as real <= 1.0
  {
    var total, n := AnalyzedSum(cs), AnalyzedCount(cs) as real;
    if forall i :: 0 <= i < |cs| ==> cs[i].confidence <= 1.0 {
      assert total <= n;
      FractionAtMostOne(total, n);
    } else {
      assert total >= 0.0;
      QuotientNonNegative(total, n);
    }
  }

  lemma QuotientNonNegative(a: real, c: real)
    requires 0.0 <= a && c > 0.0
    ensures 0.0 <= a / c
  {
    var q := a / c;
    assert q * c == a;
  }

  /** `_empty_response`: the report for no comments, which is what the
      aggregation helpers give on an empty list. */
  function EmptyReport(videoId: string): (r: Report)
    ensures r.videoId == videoId && r.totalComments == 0 && r.validComments == 0
    ensures r.comments == [] && r.processingTimeMs == 0
    ensures r.distribution == ComputeDistribution(r.comments) == Distribution(0.0, 0.0, 0.0)
    ensures r.overallSentiment == Overall(r.distribution) == NeutralLabel
    ensures r.averageConfidence == AverageConfidence(r.comments) == 0.0
  {
    Report(videoId, 0, 0, Distribution(0.0, 0.0, 0.0), NeutralLabel, 0.0, [], 0)
  }

  /** The report `analyze_comments` returns, as a function of its inputs. */
  function ExpectedReport(videoId: string, comments: seq<Comment>, demojize: string -> string,
                          model: Model, elapsedMs: int): Report
  {
    if comments == [] then EmptyReport(videoId)
    else
      var cleaned := CleanedTexts(comments, demojize);
      var validTexts := ValidTexts(cleaned);
      var enriched := Enrich(comments, cleaned, Sentiments(validTexts, model));
      var distribution := ComputeDistribution(enriched);
      Report(videoId, |comments|, |validTexts|, distribution, Overall(distribution),
             AverageConfidence(enriched), enriched, elapsedMs)
  }

  // ---------------------------------------------------------------------------
  // The pipeline

  lemma ValidTextsStep(cleaned: seq<string>, i: nat)
    requires i < |cleaned|
    ensures ValidTexts(cleaned[..i + 1]) ==
      ValidTexts(cleaned[..i]) + if Usable(cleaned[i]) then [cleaned[i]] else []
  {
    PositionsStep(cleaned, Usable, i);
    var pre, ext := cleaned[..i], cleaned[..i + 1];
    var a, b := ValidTexts(pre), ValidTexts(ext);
    var pa, pb := Positions(pre, Usable), Positions(ext, Usable);
    assert |pb| == |pa| + if Usable(cleaned[i]) then 1 else 0;
    forall j | 0 <= j < |a| ensures b[j] == a[j] {
      assert pb[j] == pa[j];
      assert pa[j] < i;
      assert ext[pa[j]] == pre[pa[j]];
    }
    if Usable(cleaned[i]) {
      assert pb[|a|] == i;
      assert b[|a|] == cleaned[i];
      AppendOne(a, b, cleaned[i]);
    } else {
      assert |b| == |a|;
      assert b == a;
    }
  }

  /** `analyze_comments`: one pass collecting `valid_texts`/`valid_indices`,
      one batch call, one pass merging by the counter `sentiment_idx`. */
  method AnalyzeComments(videoId: string, comments: seq<Comment>, demojize: string -> string,
                         model: Model, elapsedMs: int) returns (report: Report)
    ensures report == ExpectedReport(videoId, comments, demojize, model, elapsedMs)
  {
    if |comments| == 0 {
      return EmptyReport(videoId);
    }
    var cleaned := CleanedTexts(comments, demojize);
    var validTexts, validIndices := CollectValid(cleaned);
    var sentiments: seq<SentimentResult> := [];
    if validTexts != [] {
      sentiments := AnalyzeBatch(AsTexts(validTexts), model);
    }
    var enriched := Merge(comments, cleaned, validIndices, sentiments);
    var distribution := ComputeDistribution(enriched);
    var overall := Overall(distribution);
    var avgConfidence := AverageConfidence(enriched);
    report := Report(videoId, |comments|, |validTexts|, distribution, overall, avgConfidence,
                     enriched, elapsedMs);
  }

  /** Lines 23-29 of `analyze_comments`: the usable cleaned texts and their
      positions, both in input order. */
  method CollectValid(cleaned: seq<string>) returns (validTexts: seq<string>, validIndices: seq<nat>)
    ensures validTexts == ValidTexts(cleaned)
    ensures validIndices == Positions(cleaned, Usable)
  {
    validTexts, validIndices := [], [];
    for i := 0 to |cleaned|
      invariant validIndices == Positions(cleaned[..i], Usable)
      invariant validTexts == ValidTexts(cleaned[..i])
    {
      PositionsStep(cleaned, Usable, i);
      ValidTextsStep(cleaned, i);
      if IsValid(Str(cleaned[i])) {
        validTexts := validTexts + [cleaned[i]];
        validIndices := validIndices + [i];
      }
    }
    assert cleaned[..|cleaned|] == cleaned;
  }

  /** The number of usable texts grows by one exactly at a usable text, and
      a position is listed exactly when its text is usable. */
  lemma RankStep(cleaned: seq<string>, i: nat)
    requires i < |cleaned|
    ensures |Positions(cleaned[..i + 1], Usable)| ==
      |Positions(cleaned[..i], Usable)| + if Usable(cleaned[i]) then 1 else 0
    ensures i in Positions(cleaned, Usable) <==> Usable(cleaned[i])
  {
    PositionsStep(cleaned, Usable, i);
  }

  /** Lines 38-53 of `analyze_comments`: walk the comments with the counter
      `sentiment_idx`, which advances past each usable comment while
      sentiments remain, so it is always the number of usable comments seen
      so far, capped at the number of sentiments. */
  method Merge(comments: seq<Comment>, cleaned: seq<string>, validIndices: seq<nat>,
               sentiments: seq<SentimentResult>) returns (enriched: seq<EnrichedComment>)
    requires |cleaned| == |comments|
    requires validIndices == Positions(cleaned, Usable)
    ensures enriched == Enrich(comments, cleaned, sentiments)
  {
    enriched := [];
    var sentimentIdx := 0;
    for i := 0 to |comments|
      invariant MergedPrefix(comments, cleaned, sentiments, i, enriched, sentimentIdx)
    {
      MergeStep(comments, cleaned, validIndices, sentiments, i, enriched, sentimentIdx);
      var entry: EnrichedComment;
      if i in validIndices && sentimentIdx < |sentiments| {
        entry := EnrichedComment(comments[i], cleaned[i],
                                 sentiments[sentimentIdx].labelName, sentiments[sentimentIdx].confidence);
        sentimentIdx := sentimentIdx + 1;
      } else {
        entry := EnrichedComment(comments[i], cleaned[i], NeutralLabel, 0.0);
      }
      enriched := enriched + [entry];
    }
  }

  /** The loop invariant of the merge after `i` comments: the entries built
      so far are the first `i` of `Enrich`, and `sentiment_idx` is the number
      of usable comments seen so far, capped at the number of sentiments. */
  ghost predicate MergedPrefix(comments: seq<Comment>, cleaned: seq<string>, sentiments: seq<SentimentResult>,
                               i: nat, enriched: seq<EnrichedComment>, sentimentIdx: nat)
  {
    && |cleaned| == |comments| && i <= |comments|
    && enriched == Enrich(comments, cleaned, sentiments)[..i]
    && var rank := |Positions(cleaned[..i], Usable)|;
       sentimentIdx == if rank < |sentiments| then rank else |sentiments|
  }

  /** One step of the merge keeps `MergedPrefix`. */
  lemma MergeStep(comments: seq<Comment>, cleaned: seq<string>, validIndices: seq<nat>,
                  sentiments: seq<SentimentResult>, i: nat, enriched: seq<EnrichedComment>, sentimentIdx: nat)
    requires i < |comments| && validIndices == Positions(cleaned, Usable)
    requires MergedPrefix(comments, cleaned, sentiments, i, enriched, sentimentIdx)
    ensures var take := i in validIndices && sentimentIdx < |sentiments|;
      var entry :=
        if take
        then EnrichedComment(comments[i], cleaned[i], sentiments[sentimentIdx].labelName,
                             sentiments[sentimentIdx].confidence)
        else EnrichedComment(comments[i], cleaned[i], NeutralLabel, 0.0);
      MergedPrefix(comments, cleaned, sentiments, i + 1, enriched + [entry],
                   if take then sentimentIdx + 1 else sentimentIdx)
  {
    var take := i in validIndices && sentimentIdx < |sentiments|;
    var entry :=
      if take
      then EnrichedComment(comments[i], cleaned[i], sentiments[sentimentIdx].labelName,
                           sentiments[sentimentIdx].confidence)
      else EnrichedComment(comments[i], cleaned[i], NeutralLabel, 0.0);
    var full := Enrich(comments, cleaned, sentiments);
    MergeEntry(comments, cleaned, validIndices, sentiments, i, sentimentIdx);
    MergeCounter(cleaned, validIndices, |sentiments|, i, sentimentIdx);
    AppendOne(enriched, full[..i + 1], entry);
  }

  /** The entry the merge builds at `i` is entry `i` of `Enrich`. */
  lemma MergeEntry(comments: seq<Comment>, cleaned: seq<string>, validIndices: seq<nat>,
                   sentiments: seq<SentimentResult>, i: nat, sentimentIdx: nat)
    requires |cleaned| == |comments| && i < |comments|
    requires validIndices == Positions(cleaned, Usable)
    requires var rank := |Positions(cleaned[..i], Usable)|;
      sentimentIdx == if rank < |sentiments| then rank else |sentiments|
    ensures var entry :=
        if i in validIndices && sentimentIdx < |sentiments|
        then EnrichedComment(comments[i], cleaned[i], sentiments[sentimentIdx].labelName,
                             sentiments[sentimentIdx].confidence)
        else EnrichedComment(comments[i], cleaned[i], NeutralLabel, 0.0);
      Enrich(comments, cleaned, sentiments)[..i + 1][i] == entry
  {
    ListedIff(cleaned, Usable, i);
    assert Enrich(comments, cleaned, sentiments)[..i + 1][i] == EnrichedAt(comments, cleaned, sentiments, i);
  }

  /** The counter advances exactly past a usable comment while sentiments
      remain. */
  lemma MergeCounter(cleaned: seq<string>, validIndices: seq<nat>, count: nat, i: nat, sentimentIdx: nat)
    requires i < |cleaned| && validIndices == Positions(cleaned, Usable)
    requires var rank := |Positions(cleaned[..i], Usable)|;
      sentimentIdx == if rank < count then rank else count
    ensures var rank := |Positions(cleaned[..i + 1], Usable)|;
      var next := if i in validIndices && sentimentIdx < count then sentimentIdx + 1 else sentimentIdx;
      next == if rank < count then rank else count
  {
    RankStep(cleaned, i);
  }

  // ---------------------------------------------------------------------------
  // Properties of the report

  /** A usable cleaned text is one `analyze_batch` classifies. */
  lemma UsableIsClassifiable(s: string)
    requires Usable(s)
    ensures Classifiable(Str(s))
  {
    StripEmpty(s);
  }

  /** Handed usable texts of at most 400 words, the batch classifier sends
      them to the model unchanged and gives back one result per text: the
      model's j-th answer, or `Unclassified` past its end. */
  lemma SentimentsOfValid(vt: seq<string>, model: Model)
    requires forall j :: 0 <= j < |vt| ==> Usable(vt[j]) && |Split(vt[j])| <= Sentiment.MaxWords
    ensures ModelInput(AsTexts(vt)) == vt
    ensures |Sentiments(vt, model)| == |vt|
    ensures forall j :: 0 <= j < |vt| ==>
      Sentiments(vt, model)[j] == if j < |model(vt)| then FromPrediction(model(vt)[j]) else Unclassified
  {
    var texts := AsTexts(vt);
    AllClassifiable(vt);
    ModelInputOfAll(texts, vt);
    if vt != [] {
      BatchOfAll(texts, model);
    }
  }

  /** Usable texts are all classifiable, so every position is listed. */
  lemma AllClassifiable(vt: seq<string>)
    requires forall j :: 0 <= j < |vt| ==> Usable(vt[j])
    ensures Positions(AsTexts(vt), Classifiable) == seq(|vt|, i => i)
  {
    var texts := AsTexts(vt);
    forall i | 0 <= i < |texts| ensures Classifiable(texts[i]) {
      UsableIsClassifiable(vt[i]);
    }
    PositionsOfAll(texts, Classifiable);
  }

  /** When every position is listed, the batch is the texts, truncated. */
  lemma ModelInputOfAll(texts: seq<Text>, vt: seq<string>)
    requires texts == AsTexts(vt)
    requires Positions(texts, Classifiable) == seq(|vt|, i => i)
    requires forall j :: 0 <= j < |vt| ==> |Split(vt[j])| <= Sentiment.MaxWords
    ensures ModelInput(texts) == vt
  {
    var batch := ModelInput(texts);
    forall j | 0 <= j < |vt| ensures batch[j] == vt[j] {
      assert batch[j] == Truncate(texts[j].s);
    }
  }

  /** When every position is listed, text j gets answer j. */
  lemma BatchOfAll(texts: seq<Text>, model: Model)
    requires Positions(texts, Classifiable) == seq(|texts|, i => i)
    ensures var answers := model(ModelInput(texts));
      forall j :: 0 <= j < |texts| ==>
        BatchResults(texts, model)[j] == if j < |answers| then FromPrediction(answers[j]) else Unclassified
  {
    var answers := model(ModelInput(texts));
    var valid := Positions(texts, Classifiable);
    var out := BatchResults(texts, model);
    forall j | 0 <= j < |texts|
      ensures out[j] == if j < |answers| then FromPrediction(answers[j]) else Unclassified
    {
      assert valid[j] == j;
      assert Classifiable(texts[j]);
      RankOfPosition(texts, Classifiable, j);
      assert out[j] == BatchResult(texts, answers, j);
    }
  }

  /** The merge gives the j-th usable comment the j-th sentiment when there
      is one, and neutral with 0.0 otherwise; every other comment gets
      neutral with 0.0. */
  lemma EnrichScatter(comments: seq<Comment>, cleaned: seq<string>, sentiments: seq<SentimentResult>)
    requires |cleaned| == |comments|
    ensures var enriched := Enrich(comments, cleaned, sentiments);
      forall i :: 0 <= i < |comments| && !Usable(cleaned[i]) ==>
        enriched[i].sentiment == NeutralLabel && enriched[i].confidence == 0.0
    ensures var enriched := Enrich(comments, cleaned, sentiments);
      var valid := Positions(cleaned, Usable);
      forall j :: 0 <= j < |valid| ==>
        if j < |sentiments|
        then enriched[valid[j]].sentiment == sentiments[j].labelName
          && enriched[valid[j]].confidence == sentiments[j].confidence
        else enriched[valid[j]].sentiment == NeutralLabel && enriched[valid[j]].confidence == 0.0
  {
    var enriched := Enrich(comments, cleaned, sentiments);
    var valid := Positions(cleaned, Usable);
    forall i | 0 <= i < |comments| && !Usable(cleaned[i])
      ensures enriched[i].sentiment == NeutralLabel && enriched[i].confidence == 0.0
    {
      assert enriched[i] == EnrichedAt(comments, cleaned, sentiments, i);
    }
    forall j | 0 <= j < |valid|
      ensures enriched[valid[j]] == EnrichedAt(comments, cleaned, sentiments, valid[j])
      ensures Usable(cleaned[valid[j]])
      ensures |Positions(cleaned[..valid[j]], Usable)| == j
    {
      RankOfPosition(cleaned, Usable, j);
    }
  }

  /** Every comment is kept, in order and unchanged apart from the three
      added keys; the cleaned text is `clean` of its text; at most all of
      them are valid; an empty input gives `_empty_response`. */
  lemma ReportShape(videoId: string, comments: seq<Comment>, demojize: string -> string,
                    model: Model, elapsedMs: int)
    ensures var r := ExpectedReport(videoId, comments, demojize, model, elapsedMs);
      && r.videoId == videoId
      && r.totalComments == |comments| == |r.comments|
      && r.validComments <= r.totalComments
      && (forall i :: 0 <= i < |comments| ==>
            r.comments[i].comment == comments[i]
            && r.comments[i].cleanedText == Clean(TextOf(comments[i]), demojize))
      && (comments == [] ==> r == EmptyReport(videoId))
      && (comments != [] ==> r.processingTimeMs == elapsedMs)
  {
    if comments != [] {
      var cleaned := CleanedTexts(comments, demojize);
      var sentiments := Sentiments(ValidTexts(cleaned), model);
      var enriched := Enrich(comments, cleaned, sentiments);
      assert ExpectedReport(videoId, comments, demojize, model, elapsedMs).comments == enriched;
      forall i | 0 <= i < |comments|
        ensures enriched[i].comment == comments[i] && enriched[i].cleanedText == cleaned[i]
      {
        assert enriched[i] == EnrichedAt(comments, cleaned, sentiments, i);
      }
    }
  }

  /** `valid_comments` is the number of comments whose cleaned text is
      valid, and each of the others is neutral with confidence 0.0. */
  lemma ReportInvalidNeutral(videoId: string, comments: seq<Comment>, demojize: string -> string,
                             model: Model, elapsedMs: int)
    ensures var r := ExpectedReport(videoId, comments, demojize, model, elapsedMs);
      var cleaned := CleanedTexts(comments, demojize);
      && r.validComments == |Positions(cleaned, Usable)|
      && forall i :: 0 <= i < |comments| && !Usable(cleaned[i]) ==>
           r.comments[i].sentiment == NeutralLabel && r.comments[i].confidence == 0.0
  {
    if comments != [] {
      var cleaned := CleanedTexts(comments, demojize);
      EnrichScatter(comments, cleaned, Sentiments(ValidTexts(cleaned), model));
    }
  }

  /** The model sees exactly the valid cleaned texts, once, in order, and the
      k-th valid comment gets the model's k-th answer (label unchanged,
      score rounded to four places), or neutral with 0.0 once the answers
      run out. */
  lemma ReportSentiments(videoId: string, comments: seq<Comment>, demojize: string -> string,
                         model: Model, elapsedMs: int)
    ensures var r := ExpectedReport(videoId, comments, demojize, model, elapsedMs);
      var cleaned := CleanedTexts(comments, demojize);
      var valid := Positions(cleaned, Usable);
      var vt := ValidTexts(cleaned);
      var answers := model(vt);
      && ModelInput(AsTexts(vt)) == vt
      && forall k :: 0 <= k < |valid| ==>
           if k < |answers|
           then r.comments[valid[k]].sentiment == answers[k].labelName
             && r.comments[valid[k]].confidence == Round4(answers[k].score)
           else r.comments[valid[k]].sentiment == NeutralLabel && r.comments[valid[k]].confidence == 0.0
  {
    var cleaned := CleanedTexts(comments, demojize);
    var vt := ValidTexts(cleaned);
    SentimentsOfValid(vt, model);
    if comments != [] {
      EnrichScatter(comments, cleaned, Sentiments(vt, model));
    }
  }

  /** When no cleaned text is valid the classifier is never consulted: the
      report is the same whatever the model, every comment is neutral with
      confidence 0.0, and `valid_comments` is 0 while `total_comments` is
      still the number of comments. */
  lemma NoValidComments(videoId: string, comments: seq<Comment>, demojize: string -> string,
                        model: Model, other: Model, elapsedMs: int)
    requires Positions(CleanedTexts(comments, demojize), Usable) == []
    ensures var r := ExpectedReport(videoId, comments, demojize, model, elapsedMs);
      && r == ExpectedReport(videoId, comments, demojize, other, elapsedMs)
      && r.validComments == 0 && r.totalComments == |comments|
      && forall i :: 0 <= i < |comments| ==>
           r.comments[i].sentiment == NeutralLabel && r.comments[i].confidence == 0.0
  {
    ReportInvalidNeutral(videoId, comments, demojize, model, elapsedMs);
    if comments != [] {
      var cleaned := CleanedTexts(comments, demojize);
      var vt := ValidTexts(cleaned);
      assert vt == [];
      assert Sentiments(vt, model) == Sentiments(vt, other);
      forall i | 0 <= i < |comments| ensures !Usable(cleaned[i]) {
        assert i !in Positions(cleaned, Usable);
      }
    }
  }

  /** Each merged entry takes its label and confidence from a sentiment or
      is neutral with 0.0, so bounds and label sets carry over. */
  lemma EnrichInherits(comments: seq<Comment>, cleaned: seq<string>, sentiments: seq<SentimentResult>)
    requires |cleaned| == |comments|
    ensures (forall j :: 0 <= j < |sentiments| ==> 0.0 <= sentiments[j].confidence <= 1.0) ==>
      forall i :: 0 <= i < |comments| ==> 0.0 <= Enrich(comments, cleaned, sentiments)[i].confidence <= 1.0
    ensures (forall j :: 0 <= j < |sentiments| ==> KnownLabel(sentiments[j].labelName)) ==>
      KnownLabels(Enrich(comments, cleaned, sentiments))
  {
    var enriched := Enrich(comments, cleaned, sentiments);
    forall i | 0 <= i < |comments| ensures enriched[i] == EnrichedAt(comments, cleaned, sentiments, i) { }
  }

  /** The batch results for valid texts carry the model's rounded scores,
      or 0.0. */
  lemma SentimentsBounded(vt: seq<string>, model: Model)
    requires forall j :: 0 <= j < |vt| ==> Usable(vt[j]) && |Split(vt[j])| <= Sentiment.MaxWords
    requires forall q :: q in model(vt) ==> 0.0 <= q.score <= 1.0
    ensures var sentiments := Sentiments(vt, model);
      forall j :: 0 <= j < |sentiments| ==> 0.0 <= sentiments[j].confidence <= 1.0
  {
    SentimentsOfValid(vt, model);
    ScatteredAnswers(Sentiments(vt, model), model(vt));
  }

  /** The batch results for valid texts carry the model's labels, or
      neutral. */
  lemma SentimentsLabelled(vt: seq<string>, model: Model)
    requires forall j :: 0 <= j < |vt| ==> Usable(vt[j]) && |Split(vt[j])| <= Sentiment.MaxWords
    requires forall q :: q in model(vt) ==> KnownLabel(q.labelName)
    ensures var sentiments := Sentiments(vt, model);
      forall j :: 0 <= j < |sentiments| ==> KnownLabel(sentiments[j].labelName)
  {
    SentimentsOfValid(vt, model);
    ScatteredAnswers(Sentiments(vt, model), model(vt));
  }

  /** Results that are each a passed-on answer or `Unclassified` inherit
      score bounds and label sets from the answers. */
  lemma ScatteredAnswers(results: seq<SentimentResult>, answers: seq<Prediction>)
    requires forall j :: 0 <= j < |results| ==>
      results[j] == if j < |answers| then FromPrediction(answers[j]) else Unclassified
    ensures (forall q :: q in answers ==> 0.0 <= q.score <= 1.0) ==>
      forall j :: 0 <= j < |results| ==> 0.0 <= results[j].confidence <= 1.0
    ensures (forall q :: q in answers ==> KnownLabel(q.labelName)) ==>
      forall j :: 0 <= j < |results| ==> KnownLabel(results[j].labelName)
  {
    forall j | 0 <= j < |results| && j < |answers| ensures answers[j] in answers { }
  }

  /** With model scores in [0, 1], every confidence in the report and the
      average confidence lie in [0, 1]. */
  lemma ReportConfidenceBounds(videoId: string, comments: seq<Comment>, demojize: string -> string,
                               model: Model, elapsedMs: int)
    requires forall q :: q in model(ValidTexts(CleanedTexts(comments, demojize))) ==> 0.0 <= q.score <= 1.0
    ensures var r := ExpectedReport(videoId, comments, demojize, model, elapsedMs);
      && (forall i :: 0 <= i < |r.comments| ==> 0.0 <= r.comments[i].confidence <= 1.0)
      && 0.0 <= r.averageConfidence <= 1.0
  {
    if comments != [] {
      var cleaned := CleanedTexts(comments, demojize);
      var vt := ValidTexts(cleaned);
      var sentiments := Sentiments(vt, model);
      var enriched := Enrich(comments, cleaned, sentiments);
      SentimentsBounded(vt, model);
      EnrichInherits(comments, cleaned, sentiments);
      var r := ExpectedReport(videoId, comments, demojize, model, elapsedMs);
      assert r.comments == enriched && r.averageConfidence == AverageConfidence(enriched);
    }
  }

  /** With every model label one of the three, the report's distribution
      adds up to 100 up to rounding. */
  lemma ReportDistributionSums(videoId: string, comments: seq<Comment>, demojize: string -> string,
                               model: Model, elapsedMs: int)
    requires comments != []
    requires forall q :: q in model(ValidTexts(CleanedTexts(comments, demojize))) ==> KnownLabel(q.labelName)
    ensures var d := ExpectedReport(videoId, comments, demojize, model, elapsedMs).distribution;
      -0.015 <= d.positive + d.negative + d.neutral - 100.0 <= 0.015
  {
    var cleaned := CleanedTexts(comments, demojize);
    var vt := ValidTexts(cleaned);
    var sentiments := Sentiments(vt, model);
    var enriched := Enrich(comments, cleaned, sentiments);
    SentimentsLabelled(vt, model);
    EnrichInherits(comments, cleaned, sentiments);
    DistributionSumsTo100(enriched);
    assert ExpectedReport(videoId, comments, demojize, model, elapsedMs).distribution
        == ComputeDistribution(enriched);
  }

  /** The report's verdict follows the labels of its comments: a label
      held by strictly more comments than either other wins while there are
      fewer than 10000 comments, and neutral wins whenever it is held by at
      least as many as each other label, or positive and negative tie. */
  lemma ReportVerdict(videoId: string, comments: seq<Comment>, demojize: string -> string,
                      model: Model, elapsedMs: int)
    requires comments != []
    ensures var r := ExpectedReport(videoId, comments, demojize, model, elapsedMs);
      var p, n, u := CountLabel(r.comments, PositiveLabel), CountLabel(r.comments, NegativeLabel),
                     CountLabel(r.comments, NeutralLabel);
      && (|comments| < 10000 && p > n && p > u ==> r.overallSentiment == PositiveLabel)
      && (|comments| < 10000 && n > p && n > u ==> r.overallSentiment == NegativeLabel)
      && (u >= p && u >= n ==> r.overallSentiment == NeutralLabel)
      && (p == n ==> r.overallSentiment == NeutralLabel)
  {
    var r := ExpectedReport(videoId, comments, demojize, model, elapsedMs);
    ReportShape(videoId, comments, demojize, model, elapsedMs);
    assert r.distribution == ComputeDistribution(r.comments);
    assert r.overallSentiment == Overall(r.distribution);
    VerdictFollowsCounts(r.comments);
  }
}
