/**
  The classifier wrapper `SentimentAnalyzer` (src/models/sentiment.py). The
  pretrained model is a parameter: a function from a batch of texts to one
  prediction per text it chose to answer. It is never inspected, so nothing
  here says which label a text gets.
*/
module Sentiment {
  import opened Wrappers
  import opened PyStr
  import opened Rounding
  import opened Indexing

  /** One entry of the model's output: `{"label": ..., "score": ...}` (`label` is a Dafny keyword, hence `labelName`). */
  datatype Prediction = Prediction(labelName: string, score: real)

  /** `self.model`, the transformers pipeline, applied to a list of texts. */
  type Model = seq<string> -> seq<Prediction>

  /** `{"label": ..., "confidence": ...}` as returned to callers. */
  datatype SentimentResult = SentimentResult(labelName: string, confidence: real)

  const PositiveLabel: string := "positive"
  const NegativeLabel: string := "negative"
  const NeutralLabel: string := "neutral"

  /** The result given to a text the model never sees. */
  const Unclassified: SentimentResult := SentimentResult(NeutralLabel, 0.0)

  /** The pre-truncation limit, well under the model's 512 tokens. */
  const MaxWords: nat := 400

  /** Why a call failed: the model answered a single text with an empty list,
      so `self.model(text)[0]` raises. */
  datatype ModelError = NoPrediction

  /** A model answer as the wrapper passes it on: label name unchanged, score
      rounded to four places. */
  function FromPrediction(p: Prediction): (r: SentimentResult)
    ensures r.labelName == p.labelName
    ensures -0.00005 <= r.confidence - p.score <= 0.00005
    ensures 0.0 <= p.score <= 1.0 ==> 0.0 <= r.confidence <= 1.0
  {
    SentimentResult(p.labelName, Round4(p.score))
  }

  /** `_truncate`: a text of at most 400 words is returned untouched;
      a longer one becomes its first 400 words joined by single spaces. */
  function Truncate(s: string): (r: string)
    ensures |Split(s)| <= MaxWords ==> r == s
    ensures |Split(s)| > MaxWords ==> Split(r) == Split(s)[..MaxWords] && Normalized(r)
    ensures |Split(r)| <= MaxWords
  {
    TruncateWords(s, MaxWords)
  }

  /** `analyze`: an empty string or a non-string gets `Unclassified` without
      the model; anything else is truncated and sent alone. */
  function Analyze(t: Text, model: Model): (r: Result<SentimentResult, ModelError>)
    ensures (t.NonString? || t.s == []) ==> r == Ok(Unclassified)
    ensures t.Str? && t.s != [] ==> (r == Err(NoPrediction) <==> model([Truncate(t.s)]) == [])
    ensures t.Str? && t.s != [] && r.Ok? ==>
      var p := model([Truncate(t.s)])[0];
      && r.value.labelName == p.labelName
      && r.value.confidence == Round4(p.score)
      && -0.00005 <= r.value.confidence - p.score <= 0.00005
      && (0.0 <= p.score <= 1.0 ==> 0.0 <= r.value.confidence <= 1.0)
  {
    if t.NonString? || t.s == [] then Ok(Unclassified)
    else
      var answer := model([Truncate(t.s)]);
      if answer == [] then Err(NoPrediction) else Ok(FromPrediction(answer[0]))
  }

  /** The filter of `analyze_batch`: `text and isinstance(text, str) and text.strip()`. */
  predicate Classifiable(t: Text) {
    t.Str? && t.s != [] && Strip(t.s) != []
  }

  /** The batch sent to the model: the classifiable texts, truncated, in
      their original order. */
  function ModelInput(texts: seq<Text>): (batch: seq<string>)
    ensures |batch| == |Positions(texts, Classifiable)|
    ensures forall j :: 0 <= j < |batch| ==> |Split(batch[j])| <= MaxWords
  {
    var valid := Positions(texts, Classifiable);
    seq(|valid|, j requires 0 <= j < |valid| => Truncate(texts[valid[j]].s))
  }

  /** Scanning one more text appends its truncation to the batch exactly when
      it is classifiable. */
  lemma ModelInputStep(texts: seq<Text>, i: nat)
    requires i < |texts|
    ensures ModelInput(texts[..i + 1]) ==
      ModelInput(texts[..i]) + if Classifiable(texts[i]) then [Truncate(texts[i].s)] else []
  {
    PositionsStep(texts, Classifiable, i);
    var pre, ext := texts[..i], texts[..i + 1];
    var a, b := ModelInput(pre), ModelInput(ext);
    var pa, pb := Positions(pre, Classifiable), Positions(ext, Classifiable);
    forall j | 0 <= j < |a| ensures b[j] == a[j] {
      assert pb[j] == pa[j];
      assert pa[j] < i;
      assert ext[pa[j]] == pre[pa[j]];
    }
    if Classifiable(texts[i]) {
      assert pb[|a|] == i;
      assert b[|a|] == Truncate(texts[i].s);
      AppendOne(a, b, Truncate(texts[i].s));
    } else {
      assert |b| == |a|;
      assert b == a;
    }
  }

  /** What `analyze_batch` gives text `i`: `Unclassified` unless it is
      classifiable; otherwise the answer whose ordinal is the number of
      classifiable texts before it, if the model returned that many. */
  function BatchResult(texts: seq<Text>, answers: seq<Prediction>, i: nat): SentimentResult
    requires i < |texts|
  {
    var rank := |Positions(texts[..i], Classifiable)|;
    if Classifiable(texts[i]) && rank < |answers| then FromPrediction(answers[rank]) else Unclassified
  }

  /** The whole output of `analyze_batch` for a model. */
  function BatchResults(texts: seq<Text>, model: Model): (r: seq<SentimentResult>)
    ensures |r| == |texts|
  {
    var answers := model(ModelInput(texts));
    seq(|texts|, i requires 0 <= i < |texts| => BatchResult(texts, answers, i))
  }

  /** The scatter `analyze_batch` performs: texts that are not classifiable
      get `Unclassified`; the j-th classifiable text gets the model's j-th
      answer, or `Unclassified` when the model returned fewer answers than it
      was given texts (`zip` stops at the shorter list). */
  lemma BatchResultsScatter(texts: seq<Text>, model: Model)
    ensures forall i :: 0 <= i < |texts| && !Classifiable(texts[i]) ==>
      BatchResults(texts, model)[i] == Unclassified
    ensures var valid := Positions(texts, Classifiable);
      var answers := model(ModelInput(texts));
      forall j :: 0 <= j < |valid| ==>
        BatchResults(texts, model)[valid[j]] == if j < |answers| then FromPrediction(answers[j]) else Unclassified
  {
    var answers := model(ModelInput(texts));
    var out := BatchResults(texts, model);
    forall i | 0 <= i < |texts| && !Classifiable(texts[i]) ensures out[i] == Unclassified {
      assert out[i] == BatchResult(texts, answers, i);
    }
    forall j | 0 <= j < |Positions(texts, Classifiable)| {
      BatchResultAtRank(texts, model, j);
    }
  }

  /** The j-th classifiable text gets the j-th answer. */
  lemma BatchResultAtRank(texts: seq<Text>, model: Model, j: nat)
    requires j < |Positions(texts, Classifiable)|
    ensures var i, answers := Positions(texts, Classifiable)[j], model(ModelInput(texts));
      BatchResults(texts, model)[i] == if j < |answers| then FromPrediction(answers[j]) else Unclassified
  {
    var i := Positions(texts, Classifiable)[j];
    RankOfPosition(texts, Classifiable, j);
    assert BatchResults(texts, model)[i] == BatchResult(texts, model(ModelInput(texts)), i);
  }

  /** A write-back over the classifiable positions yields the batch's
      results. */
  lemma WriteBackIsBatch(texts: seq<Text>, answers: seq<Prediction>, output: seq<SentimentResult>)
    requires |output| == |texts|
    requires var valid := Positions(texts, Classifiable);
      && (forall j :: 0 <= j < |valid| ==>
            output[valid[j]] == if j < |answers| then FromPrediction(answers[j]) else Unclassified)
      && (forall m :: 0 <= m < |texts| && m !in valid ==> output[m] == Unclassified)
    ensures output == seq(|texts|, i requires 0 <= i < |texts| => BatchResult(texts, answers, i))
  {
    var expected := seq(|texts|, i requires 0 <= i < |texts| => BatchResult(texts, answers, i));
    forall i | 0 <= i < |texts|
      ensures output[i] == expected[i]
    {
      WriteBackAt(texts, answers, output, i);
    }
  }

  lemma WriteBackAt(texts: seq<Text>, answers: seq<Prediction>, output: seq<SentimentResult>, i: nat)
    requires |output| == |texts| && i < |texts|
    requires var valid := Positions(texts, Classifiable);
      && (forall j :: 0 <= j < |valid| ==>
            output[valid[j]] == if j < |answers| then FromPrediction(answers[j]) else Unclassified)
      && (forall m :: 0 <= m < |texts| && m !in valid ==> output[m] == Unclassified)
    ensures output[i] == BatchResult(texts, answers, i)
  {
    if Classifiable(texts[i]) {
      var j := RankOf(texts, Classifiable, i);
    } else {
      ListedIff(texts, Classifiable, i);
    }
  }

  /** `analyze_batch`: one result per input text, in input order, as
      `BatchResults` describes; the model is applied once, to the truncated
      classifiable texts (`ModelInput`), and not at all when there are none. */
  method AnalyzeBatch(texts: seq<Text>, model: Model) returns (output: seq<SentimentResult>)
    ensures output == BatchResults(texts, model)
  {
    if |texts| == 0 {
      return [];
    }
    var validTexts: seq<string> := [];
    var validIndices: seq<nat> := [];
    for i := 0 to |texts|
      invariant validIndices == Positions(texts[..i], Classifiable)
      invariant validTexts == ModelInput(texts[..i])
    {
      PositionsStep(texts, Classifiable, i);
      ModelInputStep(texts, i);
      if Classifiable(texts[i]) {
        validTexts := validTexts + [Truncate(texts[i].s)];
        validIndices := validIndices + [i];
      }
    }
    assert texts[..|texts|] == texts;
    if |validTexts| == 0 {
      output := seq(|texts|, _ => Unclassified);
      return;
    }
    var answers := model(validTexts);
    output := WriteBack(|texts|, validIndices, answers);
    WriteBackIsBatch(texts, answers, output);
  }

  /** Lines 57-63 of `analyze_batch`: pre-fill `output` with `Unclassified`,
      then overwrite `output[valid_idx]` for each pair of `zip(valid_indices,
      results)`. Each listed position gets its answer, a listed position past
      the last answer and every unlisted position keep `Unclassified`. */
  method WriteBack(n: nat, indices: seq<nat>, answers: seq<Prediction>) returns (output: seq<SentimentResult>)
    requires forall j :: 0 <= j < |indices| ==> indices[j] < n
    requires forall j, l :: 0 <= j < l < |indices| ==> indices[j] < indices[l]
    ensures |output| == n
    ensures forall j :: 0 <= j < |indices| ==>
      output[indices[j]] == if j < |answers| then FromPrediction(answers[j]) else Unclassified
    ensures forall m :: 0 <= m < n && m !in indices ==> output[m] == Unclassified
  {
    var out := new SentimentResult[n](_ => Unclassified);
    var k := 0;
    while k < |indices| && k < |answers|
      invariant 0 <= k <= |indices| && k <= |answers|
      invariant forall j :: 0 <= j < k ==> out[indices[j]] == FromPrediction(answers[j])
      invariant forall m :: 0 <= m < n && (forall j :: 0 <= j < k ==> indices[j] != m) ==> out[m] == Unclassified
    {
      out[indices[k]] := FromPrediction(answers[k]);
      k := k + 1;
    }
    output := out[..];
  }

  /** A model that answers every text on its own: batching does not change
      what each text gets. */
  ghost predicate PerText(model: Model) {
    && (forall batch: seq<string> :: |model(batch)| == |batch|)
    && (forall batch: seq<string>, j :: 0 <= j < |batch| ==>
          |model([batch[j]])| == 1 && model(batch)[j] == model([batch[j]])[0])
  }

  /** Under a per-text model, batching is invisible for every classifiable
      text: `analyze_batch` gives it exactly what `analyze` gives it alone. */
  lemma BatchAgreesWithSingle(texts: seq<Text>, model: Model, i: nat)
    requires PerText(model)
    requires i < |texts| && Classifiable(texts[i])
    ensures Analyze(texts[i], model).Ok?
    ensures BatchResults(texts, model)[i] == Analyze(texts[i], model).value
  {
    var j := RankOf(texts, Classifiable, i);
    var batch := ModelInput(texts);
    assert batch[j] == Truncate(texts[i].s);
    PerTextAnswer(model, batch, j);
    BatchResultAtRank(texts, model, j);
    AnalyzeOfAnswer(texts[i], model);
  }

  /** `analyze` on a non-empty string the model answers is that answer. */
  lemma AnalyzeOfAnswer(t: Text, model: Model)
    requires t.Str? && t.s != [] && model([Truncate(t.s)]) != []
    ensures Analyze(t, model) == Ok(FromPrediction(model([Truncate(t.s)])[0]))
  {
  }

  lemma PerTextAnswer(model: Model, batch: seq<string>, j: nat)
    requires PerText(model) && j < |batch|
    ensures |model(batch)| == |batch| && |model([batch[j]])| == 1
    ensures model(batch)[j] == model([batch[j]])[0]
  {
  }

  /** Whitespace-only text is where the two entry points part: `analyze`
      sends " " to the model, `analyze_batch` does not. */
  lemma BlankTextDiffers()
    ensures var model: Model := batch => seq(|batch|, _ => Prediction(PositiveLabel, 1.0));
      && PerText(model)
      && Analyze(Str(" "), model) == Ok(SentimentResult(PositiveLabel, 1.0))
      && BatchResults([Str(" ")], model) == [Unclassified]
  {
    var model: Model := batch => seq(|batch|, _ => Prediction(PositiveLabel, 1.0));
    assert !Classifiable(Str(" ")) by { assert IsSpace(' '); StripEmpty(" "); }
    assert Round4(1.0) == 1.0;
  }
}
