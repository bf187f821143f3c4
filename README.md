# YouTube comment sentiment pipeline: a Dafny model

This project models the core of a service that takes the comments of a YouTube
video and reports their sentiment. It consists of:

- the text normaliser `TextProcessor` (`clean`, `is_valid`). It strips URLs and
  HTML tags, lower-cases the text, collapses repeated punctuation and letters,
  normalises whitespace and caps the text at 400 words.
- the classifier wrapper `SentimentAnalyzer` (`analyze`, `analyze_batch`,
  `_truncate`). It sends only the classifiable texts to the model, in one batch.
  Then it scatters the answers back to their original positions.
- the orchestrator `AnalyzerService.analyze_comments` and its aggregation
  helpers. It cleans every comment and picks the valid ones. It classifies them,
  merges the results back by ordinal position, and reports:
  - a label distribution;
  - an overall verdict, with ties going to neutral;
  - an average confidence.
- the video-id extractor `get_videoId`, and the two request field validators
  built on it.

The model is written in the source's own form:

- The normaliser, the extractor and the validators are pure. Every regular
  expression substitution is a recursive function that scans left to right, as
  `re.sub` does.
- `analyze_comments` and `analyze_batch` are methods with loops. Their loops
  fill `valid_texts`/`valid_indices`, advance the counter `sentiment_idx`, and
  overwrite `output[valid_idx]` in an array. Each method is proved equal to a
  specification function of its inputs.
- The lemmas state what the report promises about those functions.

Modules:

| module | models |
|---|---|
| `Wrappers` | `Option` and `Result` |
| `PyStr` | the Python `str` built-ins the core uses, over ASCII: `isspace`, `lower`, `strip`, `split`, `' '.join`, `removeprefix`, slicing around a separator |
| `Rounding` | Python's `round(x, n)` (half to even) on exact reals |
| `Indexing` | `valid_indices`: the increasing list of positions that pass a test |
| `Preprocessing` | `TextProcessor.clean` and `TextProcessor.is_valid` |
| `Sentiment` | `SentimentAnalyzer.analyze`, `analyze_batch` and `_truncate` |
| `Analyzer` | `AnalyzerService.analyze_comments` and its helpers |
| `Validators` | `get_videoId` |
| `Requests` | `AnalyzeRequest.validate_video_url` and `validate_max_comments` |
| `CleanExamples`, `AnalyzerExamples` | the repository's unit and integration test cases, stated as lemmas |

Parameters stand in for the things the model cannot see:

- the transformer model is `model: seq<string> -> seq<Prediction>`;
- `emoji.demojize` is `demojize: string -> string`;
- the elapsed wall-clock time is `elapsedMs`.

A Python value that may not be a string is `Text = Str(s) | NonString`. A
comment record without a "text" key has `text == None`, which
`comment.get("text", "")` reads as `Str("")`.

## Model

| member | source | states |
|---|---|---|
| PyStr.Lower | src/models/preprocessing.py:26 | `lower()` keeps the length, turns each A–Z into its lower-case letter and keeps every other character, so no upper-case letter remains |
| PyStr.IsSpace | src/models/preprocessing.py:26 | the whitespace test behind `strip()`, `split()` and `\s`, over ASCII: tab to carriage return, the separators 28–31 and space. It is a predicate with no contract of its own; `PyStr.LStrip`, `PyStr.RStrip`, `PyStr.Split` and `PyStr.NonSpaceRun` state what depends on it |
| PyStr.IsUpper | src/models/preprocessing.py:26 | the upper-case letters A–Z that `lower()` changes. It is a predicate with no contract of its own; `PyStr.Lower` and `PyStr.LowerOfLower` depend on it |
| PyStr.LowerChar | src/models/preprocessing.py:26 | `lower()` on one character: A–Z to a–z, everything else kept. It has no contract of its own; `PyStr.Lower` states what it does to a whole text |
| PyStr.IsLetter | src/models/preprocessing.py:29 | the class `[a-zA-Z]` of the letter collapse. It is a predicate with no contract of its own; `Preprocessing.LetterRunsGone` and `Preprocessing.LetterRunToTwo` depend on it |
| PyStr.IsWordChar | src/models/preprocessing.py:28 | the class `\w` over ASCII: letters, digits and underscore; its complement is `\W`, whose runs the first collapse shortens. It is a predicate with no contract of its own; `Preprocessing.NonWordRunsGone`, `Preprocessing.NonWordRunsIdle` and `Preprocessing.GapToOne` depend on it |
| PyStr.LowerOfLower | src/models/preprocessing.py:26 | lower-casing text with no upper-case letter changes nothing |
| PyStr.LStrip | src/models/preprocessing.py:26 | the result is a suffix of the input; everything dropped is whitespace; the result does not start with whitespace |
| PyStr.RStrip | src/models/preprocessing.py:26 | the result is a prefix of the input; everything dropped is whitespace; the result does not end with whitespace |
| PyStr.Strip | src/models/preprocessing.py:26 | `strip()` is the slice between the leading and trailing whitespace runs; neither end of it is whitespace |
| PyStr.StripAtLeastTwo | src/models/preprocessing.py:54-59 | the stripped text has at least two characters iff the text has two non-whitespace characters |
| PyStr.StripEmpty | src/models/preprocessing.py:54-57 | the stripped text is empty iff the text is all whitespace |
| PyStr.StripTrimmed | src/models/preprocessing.py:37 | stripping text whose ends are not whitespace returns it unchanged |
| PyStr.StripPadded | src/models/preprocessing.py:26 | stripping whitespace padding around a trimmed core returns exactly the core |
| PyStr.NonSpaceRun | src/models/preprocessing.py:6 | the length of the leading `\S*` run: every character in it is non-whitespace, and the next is whitespace or the end |
| PyStr.Split | src/models/preprocessing.py:31 | `split()` yields non-empty whitespace-free words, and no words iff the text is all whitespace |
| PyStr.Join | src/models/preprocessing.py:31 | `' '.join(words)`. It has no contract of its own; `PyStr.JoinNormalized`, `PyStr.SplitJoin` and `PyStr.JoinSplit` state its properties |
| PyStr.JoinNormalized | src/models/preprocessing.py:31 | `' '.join` of words is normalised (single spaces, none at the ends), starts with the first word, ends with the last word's last character, and is empty iff there are no words |
| PyStr.SplitJoin | src/models/preprocessing.py:31 | splitting the join of words gives back the words |
| PyStr.JoinSplit | src/models/preprocessing.py:31 | joining the split of normalised text gives back the text, so whitespace normalisation is idempotent |
| PyStr.SplitAfterWord | src/models/preprocessing.py:31 | splitting text that starts with a word followed by whitespace gives that word, then the split of the rest |
| PyStr.TruncateWords | src/models/preprocessing.py:33-35 | text within the word limit is returned unchanged; longer text becomes exactly its first `limit` words, normalised; the result never exceeds the limit |
| PyStr.RemovePrefix | src/utils/validators.py:4 | `removeprefix` drops the prefix when present and otherwise returns the text unchanged |
| PyStr.BeforeFirst | src/utils/validators.py:4 | `split(c)[0]` is the longest prefix without `c`, and `c` or the end follows it |
| PyStr.AfterLast | src/utils/validators.py:3 | `split(c)[-1]` is the longest suffix without `c`, and `c` or the start precedes it |
| PyStr.AfterLastOfSuffix | src/utils/validators.py:3 | the part after the last `c` of `p + c + t`, where `t` holds no `c`, is `t` whatever `p` is |
| Rounding.RoundHalfEven | src/services/analyzer.py:85-87 | the rounded integer is the floor or the ceiling, within 0.5 of the value, exact on integers, and even on an exact half |
| Rounding.Round2 | src/services/analyzer.py:85-87 | `round(x, 2)` has at most two decimals, is within 0.005 of x, keeps [0, 100] and keeps 0 |
| Rounding.Round4 | src/models/sentiment.py:62 | `round(x, 4)` has at most four decimals, is within 0.00005 of x, keeps [0, 1] and keeps 0 |
| Rounding.RoundTiesToEven | src/services/analyzer.py:85-87 | exact halves round to the even neighbour: 0.125 → 0.12, 0.375 → 0.38, 0.03125 → 0.0312. The three values are exact in binary, so Python's `round` gives the same |
| Rounding.RoundHalfEvenMonotone | src/services/analyzer.py:85-87 | rounding to an integer is monotone |
| Rounding.Round2Monotone | src/services/analyzer.py:85-87 | rounding to two places is monotone |
| Indexing.Positions | src/services/analyzer.py:23-29 | `valid_indices` is strictly increasing, lists only positions that pass, and lists every position that passes |
| Indexing.PositionsOfPrefix | src/services/analyzer.py:23-29 | the positions found in a prefix are a prefix of all positions found, and the later ones lie beyond the prefix |
| Indexing.RankOfPosition | src/services/analyzer.py:39-51 | exactly j listed positions come before the j-th one |
| Indexing.PositionsStep | src/services/analyzer.py:23-29 | scanning one more element appends its index exactly when it passes |
| Indexing.PositionsOfAll | src/models/sentiment.py:45-48 | when every element passes, the positions are 0, 1, …, n-1 |
| Indexing.PositionsCount | src/services/analyzer.py:23-29 | the number of listed positions is the size of the set of positions whose element passes |
| Indexing.ListedIff | src/services/analyzer.py:45 | `i in valid_indices` iff element i passes |
| Indexing.RankOf | src/models/sentiment.py:59-63 | a passing position is listed, at the rank equal to the number of passing positions before it |
| Preprocessing.UrlPrefixLength | src/models/preprocessing.py:6 | the literal part `https://`, `http://` or `www.` that starts the text has length 8, 7 or 4 (0 if there is none) |
| Preprocessing.UrlAt | src/models/preprocessing.py:6 | a match of `https?://\S+` or `www\.\S+` starts at the front: the literal part followed by at least one non-whitespace character. It is a predicate with no contract of its own; `Preprocessing.UrlPrefixLength`, `Preprocessing.UrlStartsWithNonSpace` and `Preprocessing.UrlAtFromFront` state its properties |
| Preprocessing.StripUrls | src/models/preprocessing.py:22 | `url_pattern.sub("", text)` never lengthens the text. What it removes and keeps is stated by `Preprocessing.StripUrlsRemovesAll`, `Preprocessing.UrlFreeUntouched`, `Preprocessing.UrlDropped` and `Preprocessing.UrlsKeptBefore` |
| Preprocessing.UrlStartsWithNonSpace | src/models/preprocessing.py:6 | a URL match starts with a non-space and its `\S+` run extends past the literal part |
| Preprocessing.UrlAtFromFront | src/models/preprocessing.py:6 | whether a URL match starts at the front depends only on its literal part and the next character |
| Preprocessing.StripUrlsAtSpace | src/models/preprocessing.py:22 | text starting with whitespace still starts with whitespace after URL removal |
| Preprocessing.StripUrlsKeepsFront | src/models/preprocessing.py:22 | a non-whitespace prefix of the URL-free result is also a prefix of the input |
| Preprocessing.StripUrlsRemovesAll | src/models/preprocessing.py:22 | no URL match survives `url_pattern.sub("", text)` |
| Preprocessing.UrlFreeUntouched | src/models/preprocessing.py:22 | text with no URL match is unchanged by URL removal |
| Preprocessing.UrlDropped | src/models/preprocessing.py:22 | `https://` plus a non-whitespace token ending at whitespace or the end is removed entirely |
| Preprocessing.UrlsKeptBefore | src/models/preprocessing.py:22 | a front in which no `ht`/`ww` can start a match passes through URL removal unchanged |
| Preprocessing.UrlsKeptFront | src/models/preprocessing.py:22 | the same for the first n characters of a string |
| Preprocessing.UrlKeptOne | src/models/preprocessing.py:22 | a character that does not start a match is kept, and scanning continues at the next one |
| Preprocessing.NoUrlWithoutColonOrDot | src/models/preprocessing.py:6 | text without ':' or '.' holds no URL match |
| Preprocessing.TagAt | src/models/preprocessing.py:7 | a match of `<.*?>` starts at the front: a '<' and a '>' later with no newline in between. It is a predicate with no contract of its own; `Preprocessing.TagClose` and `Preprocessing.TagCloseAfter` state where the match ends |
| Preprocessing.StripTags | src/models/preprocessing.py:23 | `html_tags_pattern.sub("", text)` never lengthens the text. What it removes and keeps is stated by `Preprocessing.StripTagsRemovesAll`, `Preprocessing.TagDropped`, `Preprocessing.TagsKeptBefore` and `Preprocessing.StripTagsKeepsUnclosed` |
| Preprocessing.TagClose | src/models/preprocessing.py:7 | the lazy `.*?>` finds the first '>' with no newline before it, and fails only when every '>' has a newline before it |
| Preprocessing.TagCloseAfter | src/models/preprocessing.py:7 | in `x + ">" + t`, where x holds no '>' and no newline, the tag closes at position \|x\| |
| Preprocessing.StripTagsKeepsUnclosed | src/models/preprocessing.py:23 | text in which no tag can close still has none after tag removal |
| Preprocessing.StripTagsRemovesAll | src/models/preprocessing.py:23 | no `<...>` match survives `html_tags_pattern.sub("", text)` |
| Preprocessing.TagDropped | src/models/preprocessing.py:23 | a leading `<x>`, with x free of '>' and newlines, is removed entirely |
| Preprocessing.TagsKeptBefore | src/models/preprocessing.py:23 | a front without '<' passes through tag removal unchanged |
| Preprocessing.PlainTextUntouched | src/models/preprocessing.py:22-23 | text with no URL match and no '<' is unchanged by both removals |
| Preprocessing.CollapseNonWordRuns | src/models/preprocessing.py:28 | `re.sub(r'(\W)\1+', r'\1', text)`. It has no contract of its own; `Preprocessing.NonWordRunsChars`, `Preprocessing.NonWordRunsGone`, `Preprocessing.NonWordRunsIdle` and `Preprocessing.NonWordRunToOne` state its properties |
| Preprocessing.NonWordRunsChars | src/models/preprocessing.py:28 | collapsing `(\W)\1+` never lengthens the text, keeps its first character, and keeps its set of characters exactly |
| Preprocessing.NonWordRunsGone | src/models/preprocessing.py:28 | after the collapse no non-word character is followed by itself |
| Preprocessing.NonWordRunsIdle | src/models/preprocessing.py:28 | text with no repeated non-word character is unchanged, so the step is idempotent |
| Preprocessing.NonWordRunToOne | src/models/preprocessing.py:28 | a run of k ≥ 1 copies of a non-word character becomes one copy |
| Preprocessing.WordCharsKept | src/models/preprocessing.py:28 | a front of word characters passes through the collapse unchanged |
| Preprocessing.WordCharKept | src/models/preprocessing.py:28 | a leading word character is kept, and scanning continues after it |
| Preprocessing.GapToOne | src/models/preprocessing.py:28 | a word followed by k ≥ 1 spaces keeps the word and one space |
| Preprocessing.WordsKept | src/models/preprocessing.py:28 | words of word characters joined by single spaces are unchanged by the collapse |
| Preprocessing.CollapseLetterRuns | src/models/preprocessing.py:29 | `re.sub(r'([a-zA-Z])\1{2,}', r'\1\1', text)`. It has no contract of its own; `Preprocessing.LetterRunsChars`, `Preprocessing.LetterRunsGone`, `Preprocessing.LetterRunsIdle` and `Preprocessing.LetterRunToTwo` state its properties |
| Preprocessing.LetterRunsChars | src/models/preprocessing.py:29 | collapsing `([a-zA-Z])\1{2,}` never lengthens the text, keeps its first two characters, and introduces no character |
| Preprocessing.LetterRunsGone | src/models/preprocessing.py:29 | after the collapse no letter appears three times in a row |
| Preprocessing.LetterRunsIdle | src/models/preprocessing.py:29 | text without a letter triple is unchanged, so the step is idempotent |
| Preprocessing.LetterRunsKeepNonWord | src/models/preprocessing.py:28-29 | the letter collapse does not re-create a repeated non-word character |
| Preprocessing.LetterRunToTwo | src/models/preprocessing.py:29 | a run of k ≥ 2 copies of a letter becomes exactly two copies |
| Preprocessing.LetterRunAt | src/models/preprocessing.py:29 | the same for a run of k ≥ 2 copies at the front of any text |
| Preprocessing.LetterPair | src/models/preprocessing.py:29 | a pair of a letter not followed by a third copy is kept |
| Preprocessing.LetterKept | src/models/preprocessing.py:29 | a character not followed by itself is kept, and scanning continues after it |
| Preprocessing.NoUpperOfFewerChars | src/models/preprocessing.py:26-29 | a text whose characters all come from a text without upper case has none either |
| Preprocessing.CanonicalAroundSpace | src/models/preprocessing.py:31 | two canonical words joined by one space stay canonical: no upper case, no repeated non-word character, no letter triple |
| Preprocessing.SplitCanonical | src/models/preprocessing.py:31 | every word of a canonical text is canonical |
| Preprocessing.JoinCanonical | src/models/preprocessing.py:31 | joining canonical words gives canonical text |
| Preprocessing.StripNormalized | src/models/preprocessing.py:37 | the final `strip()` leaves normalised text unchanged |
| Preprocessing.LowerThenStrip | src/models/preprocessing.py:26 | `text.lower().strip()` holds no upper-case letter |
| Preprocessing.CollapsedIsCanonical | src/models/preprocessing.py:28-29 | after both collapses, text that started with no upper case is canonical |
| Preprocessing.NormalizeKeepsCanonical | src/models/preprocessing.py:31 | whitespace normalisation gives normalised text and keeps it canonical |
| Preprocessing.TruncateKeepsCanonical | src/models/preprocessing.py:33-35 | the 400-word cap keeps normalised canonical text normalised and canonical |
| Preprocessing.CleanString | src/models/preprocessing.py:21-37 | `clean` on a string gives normalised text (single spaces, none at the ends) with no upper case, no repeated non-word character, no letter triple and at most 400 words |
| Preprocessing.Clean | src/models/preprocessing.py:21-40 | the same for any Python value; a non-string makes the first substitution raise and gives "" |
| Preprocessing.CleanOfSteps | src/models/preprocessing.py:21-37 | `clean` is the composition of the seven steps in the source's order |
| Preprocessing.LaterStepsKeep | src/models/preprocessing.py:29-37 | once the text is words joined by single spaces, with no letter triple and at most 400 words, the letter collapse, normalisation, cap and strip leave it unchanged |
| Preprocessing.IsValid | src/models/preprocessing.py:42-62 | `is_valid` is true exactly for a string with two non-whitespace characters; false for non-strings, empty, blank and one-character text |
| Preprocessing.ValidCleaned | src/models/preprocessing.py:42-62 | a cleaned text is valid iff it has at least two characters |
| Preprocessing.ValidNormalized | src/models/preprocessing.py:54-62 | a normalised text is valid iff it has at least two characters |
| Sentiment.FromPrediction | src/models/sentiment.py:32-35 | the label is passed on unchanged, and the score rounded to four places stays in [0, 1] |
| Sentiment.Truncate | src/models/sentiment.py:67-76 | a text of at most 400 words is unchanged; a longer one becomes its first 400 words joined by single spaces; the result never exceeds 400 words |
| Sentiment.Analyze | src/models/sentiment.py:22-35 | an empty or non-string text gives neutral/0.0 without the model; otherwise the model sees the truncated text alone; the call fails exactly when the model answers with no prediction, and otherwise carries the first answer's label and its score rounded to four places, within 0.00005 of it and in [0, 1] when the score is |
| Sentiment.AnalyzeOfAnswer | src/models/sentiment.py:26-35 | on a non-empty string that the model answers, `analyze` returns the first answer's label and rounded score |
| Sentiment.Classifiable | src/models/sentiment.py:46 | the batch filter `text and isinstance(text, str) and text.strip()`. It is a predicate with no contract of its own; `Analyzer.UsableIsClassifiable` and `Sentiment.BlankTextDiffers` state how it relates to `is_valid` and to `analyze` |
| Sentiment.ModelInput | src/models/sentiment.py:45-48 | the batch sent to the model has one text of at most 400 words per classifiable input text |
| Sentiment.ModelInputStep | src/models/sentiment.py:45-48 | scanning one more text appends its truncation to the batch exactly when it is classifiable |
| Sentiment.BatchResult | src/models/sentiment.py:50-63 | the result `analyze_batch` gives one text. It has no contract of its own; `Sentiment.BatchResultsScatter` and `Sentiment.BatchResultAtRank` state it |
| Sentiment.BatchResults | src/models/sentiment.py:37-65 | `analyze_batch` returns exactly one result per input text |
| Sentiment.BatchResultsScatter | src/models/sentiment.py:50-63 | a text that is not classifiable gets neutral/0.0; the j-th classifiable text gets the model's j-th answer, or neutral/0.0 beyond the model's answers (`zip`) |
| Sentiment.BatchResultAtRank | src/models/sentiment.py:59-63 | the result at `valid_indices[j]` comes from the model's j-th answer |
| Sentiment.WriteBackIsBatch | src/models/sentiment.py:57-63 | an output that holds each answer at its listed position and neutral elsewhere is the whole batch result |
| Sentiment.WriteBackAt | src/models/sentiment.py:57-63 | the same, one position at a time |
| Sentiment.WriteBack | src/models/sentiment.py:57-63 | pre-filling with neutral and overwriting `output[valid_idx]` over `zip` puts each answer at its position and leaves every other entry neutral/0.0 |
| Sentiment.AnalyzeBatch | src/models/sentiment.py:37-65 | the method's output is `BatchResults`: empty for an empty list, all neutral when nothing is classifiable, and the scatter above otherwise |
| Sentiment.BatchAgreesWithSingle | src/models/sentiment.py:22-65 | for a model that answers each text on its own, `analyze_batch` gives every classifiable text what `analyze` gives it alone |
| Sentiment.BlankTextDiffers | src/models/sentiment.py:24-46 | whitespace-only text separates the two entry points: `analyze(" ")` consults the model, `analyze_batch([" "])` gives neutral/0.0 |
| Analyzer.CleanedTexts | src/services/analyzer.py:20-21 | `cleaned_texts` has one entry per comment, each of at most 400 words |
| Analyzer.TextOf | src/services/analyzer.py:20 | `comment.get("text", "")`: the comment's text, or the empty string when the key is missing. It has no contract of its own; `Analyzer.ReportShape` states that the cleaned text in the report is `clean` of it |
| Analyzer.Usable | src/services/analyzer.py:27 | `is_valid` on a cleaned text. It is a predicate with no contract of its own; `Analyzer.UsableIsClassifiable` and `Preprocessing.ValidCleaned` state its properties |
| Analyzer.ValidTexts | src/services/analyzer.py:23-29 | `valid_texts` has one entry per listed position, and each entry is valid |
| Analyzer.AsTexts | src/services/analyzer.py:32-34 | the valid texts reach `analyze_batch` as the same strings, one per input |
| Analyzer.ValidTextsStep | src/services/analyzer.py:23-29 | scanning one more cleaned text appends it to `valid_texts` exactly when it is valid |
| Analyzer.CollectValid | src/services/analyzer.py:23-29 | the loop's `valid_texts` and `valid_indices` are exactly the valid cleaned texts and their positions, in input order |
| Analyzer.RankStep | src/services/analyzer.py:39-51 | the number of valid texts seen grows by one exactly at a valid text, and a position is listed iff its text is valid |
| Analyzer.Sentiments | src/services/analyzer.py:31-36 | `sentiments`: one batch call on the valid texts, or none. It has no contract of its own; `Analyzer.SentimentsOfValid`, `Analyzer.SentimentsBounded` and `Analyzer.SentimentsLabelled` state its properties |
| Analyzer.EnrichedAt | src/services/analyzer.py:41-53 | entry i of `enriched_comments`. It has no contract of its own; `Analyzer.MergeEntry` and `Analyzer.EnrichScatter` state it |
| Analyzer.Merge | src/services/analyzer.py:38-53 | the merge loop with its counter `sentiment_idx` builds exactly `Enrich`: entry i takes the sentiment ranked by the number of valid comments before it |
| Analyzer.MergeStep | src/services/analyzer.py:41-53 | one iteration keeps the invariant: the entries built so far are a prefix of `Enrich`, and `sentiment_idx` is the number of valid comments seen so far, capped at the number of sentiments |
| Analyzer.MergeEntry | src/services/analyzer.py:44-51 | the entry built at position i is entry i of `Enrich` |
| Analyzer.MergeCounter | src/services/analyzer.py:45-48 | `sentiment_idx` advances exactly past a valid comment while sentiments remain |
| Analyzer.Enrich | src/services/analyzer.py:38-53 | `enriched_comments` has the input's length |
| Analyzer.EnrichScatter | src/services/analyzer.py:39-51 | a non-valid comment is neutral/0.0; the k-th valid comment takes `sentiments[k]` when it exists and neutral/0.0 otherwise |
| Analyzer.EnrichInherits | src/services/analyzer.py:45-51 | every merged confidence and label comes from a sentiment or is neutral/0.0, so bounds and label sets carry over |
| Analyzer.UsableIsClassifiable | src/services/analyzer.py:27 | a text that passes `is_valid` also passes the batch filter of `analyze_batch` |
| Analyzer.SentimentsOfValid | src/services/analyzer.py:31-36 | for valid texts of at most 400 words, the batch wrapper sends them to the model unchanged and returns the model's j-th answer for the j-th text, or neutral/0.0 beyond the model's answers; with no valid text the model is not called |
| Analyzer.SentimentsBounded | src/services/analyzer.py:31-36 | with model scores in [0, 1], every sentiment confidence is in [0, 1] |
| Analyzer.SentimentsLabelled | src/services/analyzer.py:31-36 | with model labels among positive/negative/neutral, every sentiment label is too |
| Analyzer.ScatteredAnswers | src/models/sentiment.py:59-63 | results that are each a passed-on answer or neutral inherit score bounds and label sets |
| Analyzer.CountLabel | src/services/analyzer.py:78-80 | the count is the number of positions whose label is the given one, so never more than the number of comments |
| Analyzer.Labelled | src/services/analyzer.py:78-80 | the test `c.get("sentiment") == label`. It has no contract of its own; `Analyzer.CountLabel` counts it |
| Analyzer.Share | src/services/analyzer.py:82 | `count/total *100`. It has no contract of its own; `Analyzer.ShareIsPercentage` and `Analyzer.DistributionSumsTo100` state its properties |
| Analyzer.ShareIsPercentage | src/services/analyzer.py:82 | each exact share lies in [0, 100] |
| Analyzer.ComputeDistribution | src/services/analyzer.py:73-88 | all zeros for no comments; otherwise each label's exact share rounded to two places, each in [0, 100] |
| Analyzer.CountsPartition | src/services/analyzer.py:78-80 | when every label is positive, negative or neutral, the three counts add up to the number of comments |
| Analyzer.DistributionSumsTo100 | src/services/analyzer.py:73-88 | the exact shares add up to 100, and the rounded ones to within 0.015 of 100 |
| Analyzer.FractionAtMostOne | src/services/analyzer.py:102-104 | a part of a positive whole divided by the whole lies in [0, 1] |
| Analyzer.Max | src/services/analyzer.py:91 | `max` of two values, applied twice for `max(distribution.values())`. It has no contract of its own; `Analyzer.Overall` depends on it |
| Analyzer.Overall | src/services/analyzer.py:90-95 | a label wins iff it is strictly above both others; otherwise, including every tie at the maximum, the verdict is neutral |
| Analyzer.ShareGap | src/services/analyzer.py:82-87 | below 10000 comments, counts one apart give shares more than 0.01 apart, which survive rounding |
| Analyzer.VerdictOfShares | src/services/analyzer.py:82-95 | the verdict from the three counts: a strict majority label wins below 10000 comments; neutral wins when it is at least each other count, or on a positive/negative tie |
| Analyzer.VerdictFollowsCounts | src/services/analyzer.py:73-95 | the same on a list of enriched comments |
| Analyzer.RoundingCanHideLead | src/services/analyzer.py:84-95 | at 50000 comments a strict positive lead (16669 vs 16668) is rounded away and the verdict is neutral |
| Analyzer.AnalyzedCount | src/services/analyzer.py:99 | `len(analyzed)` is the number of positions whose confidence is above 0, so never more than the number of comments |
| Analyzer.Analyzed | src/services/analyzer.py:99 | the test `c.get("confidence", 0.0) > 0.0`. It is a predicate with no contract of its own; `Analyzer.AnalyzedCount` counts it |
| Analyzer.AnalyzedSum | src/services/analyzer.py:102 | the sum over positive confidences is non-negative, positive iff some comment was analysed, and at most their number when no confidence exceeds 1 |
| Analyzer.AverageConfidence | src/services/analyzer.py:98-104 | 0.0 when nothing was analysed; otherwise the mean of the positive confidences rounded to four places, in [0, 1] when every confidence is at most 1 |
| Analyzer.MeanInUnit | src/services/analyzer.py:102-104 | the unrounded mean is non-negative, and at most 1 when every confidence is |
| Analyzer.EmptyReport | src/services/analyzer.py:106-121 | `_empty_response` has zero counts, no comments, an all-zero distribution, a neutral verdict and 0.0 confidence, which is what the aggregation helpers give on an empty list |
| Analyzer.AnalyzeComments | src/services/analyzer.py:13-71 | the method's report is `ExpectedReport`, the composition of cleaning, the valid filter, one batch call, the merge and the aggregation |
| Analyzer.ExpectedReport | src/services/analyzer.py:13-71 | the report as a function of the inputs. It has no contract of its own; `Analyzer.AnalyzeComments` is proved equal to it, and `Analyzer.ReportShape`, `Analyzer.ReportInvalidNeutral`, `Analyzer.ReportSentiments`, `Analyzer.NoValidComments`, `Analyzer.ReportConfidenceBounds`, `Analyzer.ReportDistributionSums` and `Analyzer.ReportVerdict` state its properties |
| Analyzer.ReportShape | src/services/analyzer.py:17-71 | the report keeps every comment in order and unchanged apart from the added keys; the cleaned text is `clean` of the comment's text; `total_comments` is the input's length; `valid_comments` is at most that; an empty input gives `_empty_response` |
| Analyzer.ReportInvalidNeutral | src/services/analyzer.py:23-58 | `valid_comments` is the number of valid cleaned texts, and every comment whose cleaned text is not valid is neutral/0.0 |
| Analyzer.ReportSentiments | src/services/analyzer.py:31-51 | the model sees exactly the valid cleaned texts, in order; the k-th valid comment gets the model's k-th label and rounded score, or neutral/0.0 beyond the model's answers |
| Analyzer.NoValidComments | src/services/analyzer.py:31-36 | with no valid cleaned text the report does not depend on the model, every comment is neutral/0.0, `valid_comments` is 0 and `total_comments` is the input count |
| Analyzer.ReportConfidenceBounds | src/services/analyzer.py:98-104 | with model scores in [0, 1], every confidence in the report and the average confidence lie in [0, 1] |
| Analyzer.ReportDistributionSums | src/services/analyzer.py:73-88 | with model labels among the three, the report's distribution adds up to 100 within 0.015 |
| Analyzer.ReportVerdict | src/services/analyzer.py:90-95 | the report's verdict follows its label counts, with ties and neutral majorities going to neutral |
| Validators.Candidate | src/utils/validators.py:3-4 | the candidate id (after the last '/', stripped, `watch?v=` removed, cut at the first '?' and then '&') holds no '/', '?' or '&' |
| Validators.VideoId | src/utils/validators.py:1-11 | a non-string gives None; otherwise an id is returned iff the candidate has exactly 11 characters, the returned id is that candidate, and it has no '/', '?' or '&' |
| Validators.LastSegmentOnly | src/utils/validators.py:3 | only the text after the last '/' matters; the host is never checked |
| Validators.AfterLastWithout | src/utils/validators.py:3 | a text without '/' is its own last segment |
| Validators.CandidateOfPlain | src/utils/validators.py:3-4 | a plain segment not starting with `watch?v=` is cut at its first '?' |
| Validators.CandidateOfWatch | src/utils/validators.py:3-4 | `watch?v=` followed by an id is cut at the first '&' |
| Validators.BareShortLinkExample | tests/unit/test_validators.py:5 | `https://youtu.be/1yeLyV43o2o` gives `1yeLyV43o2o` |
| Validators.WatchLinkExample | tests/unit/test_validators.py:6 | `https://www.youtube.com/watch?v=52c7Kxp_14E&t=1023s` gives `52c7Kxp_14E` |
| Validators.ShortLinkExample | tests/unit/test_validators.py:7 | `https://youtu.be/1yeLyV43o2o?t=2` gives `1yeLyV43o2o` |
| Validators.WrongParameterExample | tests/unit/test_validators.py:12 | `youtube.com/watch?video=dQw4w9WgXcQ` gives None, because `watch` has the wrong length |
| Validators.NoSchemeExample | tests/unit/test_validators.py:13 | the code returns `dQw4w9WgXcQ` for `www.youtube.com/watch?v=dQw4w9WgXcQ` (the test expects None) |
| Validators.HandleExample | tests/unit/test_validators.py:14 | `https://www.youtube.com/@analyticswithadam` gives None |
| Validators.ShortIdExample | tests/integration/test_api.py:99-104 | `https://notyoutube.com/watch?v=abc123` gives None |
| Validators.NoSchemeBareHostExample | tests/integration/test_api.py:106-111 | the code returns `dQw4w9WgXcQ` for `youtube.com/watch?v=dQw4w9WgXcQ` (the test expects a rejection) |
| Requests.ValidateMaxComments | src/schemas/requests.py:18-27 | None and values in [1, 50000] are returned unchanged; below 1 and above 50000 are rejected with their own errors |
| Requests.ValidateVideoUrl | src/schemas/requests.py:9-16 | a URL is accepted iff `get_videoId` finds an id, and is then returned unchanged |
| Requests.AcceptedUrlHasId | src/schemas/requests.py:13-16 | an accepted URL yields an 11-character id |
| Requests.MaxCommentsExamples | tests/integration/test_api.py:113-125 | 0 and 999999 are rejected; 1, 1000, 50000 and None pass; 50001 is rejected |
| Requests.SchemelessUrlAccepted | tests/integration/test_api.py:106-111 | scheme-less watch URLs are accepted by the code |
| Requests.ShortIdRejected | tests/integration/test_api.py:99-104 | a URL whose candidate id is too short is rejected |
| CleanExamples.UrlExample | tests/unit/test_textprocessor.py:12-17 | "Check this out https://example.com amazing!" cleans to "check this out amazing!" |
| CleanExamples.HtmlExample | tests/unit/test_textprocessor.py:19-24 | "This is <b>bold</b> text" cleans to "this is bold text" |
| CleanExamples.ReallyExample | tests/unit/test_textprocessor.py:32-36 | "Really???" cleans to "really?" |
| CleanExamples.YesExample | tests/unit/test_textprocessor.py:38-42 | "yesssssss" cleans to "yess" |
| CleanExamples.GoodExample | tests/unit/test_textprocessor.py:44-47 | "goood" cleans to "good" |
| CleanExamples.SpacesExample | tests/unit/test_textprocessor.py:49-53 | "too    many     spaces" cleans to "too many spaces" |
| CleanExamples.AroundExample | tests/unit/test_textprocessor.py:55-60 | "   spaces around   " cleans to "spaces around" |
| CleanExamples.BlankCleansToEmpty | tests/unit/test_textprocessor.py:62-65 | any all-whitespace text, the empty one included, cleans to "" |
| CleanExamples.BlankExample | tests/unit/test_textprocessor.py:72-75 | "    " cleans to "" |
| CleanExamples.IsValidExamples | tests/unit/test_textprocessor.py:87-107 | "this is valid", "ok" and "no" are valid; "", "   ", "\t", "\n", "a", "?" and None are not |
| CleanExamples.ValidFromFront | src/models/preprocessing.py:42-62 | text starting with two non-whitespace characters is valid |
| CleanExamples.InvalidWhenBlank | src/models/preprocessing.py:54-57 | all-whitespace text is not valid |
| CleanExamples.InvalidWhenShort | src/models/preprocessing.py:51-60 | text of at most one character is not valid |
| CleanExamples.OnlyUrlExample | tests/unit/test_textprocessor.py:116 | "https://only-url.com" cleans to "" and is not valid |
| AnalyzerExamples.InvalidCommentsExample | tests/integration/test_analysis_pipeline.py:76-90 | a URL-only comment and a blank comment give 2 total, 0 valid, and both neutral/0.0 |
| AnalyzerExamples.EmptyListExample | tests/integration/test_analysis_pipeline.py:114-122 | an empty list gives 0 total, 0 valid, no comments, a neutral verdict and the given video id |

## Left out

- The transformer model is the parameter `model`. Which label a text gets is not modelled. Of the exceptions it can raise, only an empty answer to a single text is modelled: `Err(NoPrediction)` from `Analyze`.
- The pipeline's own 512-token truncation and its `batch_size` setting are not modelled. The model parameter sees the whole batch.
- `emoji.demojize` is the parameter `demojize`. Its emoji table is not part of this model. The example lemmas require `demojize` to leave their input unchanged, since those inputs hold no emoji.
- Floating point: scores, percentages and means are exact reals. `round(x, n)` is half-to-even on the exact value. The binary rounding error of Python floats is not modelled.
- Unicode: `\w`, `\W`, `\S`, `isspace`, `lower()`, `strip()` and `split()` are modelled over ASCII. `isspace` covers the ASCII whitespace and the separator characters 28–31.
- `asyncio.to_thread` and `time.time()`: `analyze_comments` runs synchronously, and `processing_time_ms` is the parameter `elapsedMs`.
- Comments are records with the keys the pipeline reads and copies. Extra keys and the list-shaped rows the YouTube client returns are not modelled.
- The Redis cache, the rate limiter, the Google API client, the HTTP routes, the settings, the response schema and the command-line dashboard are not part of this model.
- A failing `validate_*` raises `ValueError` inside pydantic and becomes an HTTP 422. Here it is an `Err` value.
- The request size: `validate_max_comments` enforces 1–50000 (src/schemas/requests.py:18-27), and the model follows it.
- Validators.VideoId: the length check of `get_videoId` is a Python `assert` (src/utils/validators.py:7), which `python -O` removes, so that any candidate would then be returned. The model keeps the check, as in a normal deployment.
- Scheme-less watch URLs: `tests/unit/test_validators.py:13` and `tests/integration/test_api.py:106-111` expect them to be rejected. The code accepts them. The model follows the code; `Validators.NoSchemeExample` and `Validators.NoSchemeBareHostExample` state what the code does.
- Preprocessing.StripUrls: its own contract states only that removal never lengthens the text. The lemmas that remove or keep matches state the rest.
- Preprocessing.StripTags: its own contract states only that removal never lengthens the text. The lemmas that remove or keep tags state the rest.
- Preprocessing.CollapseNonWordRuns and Preprocessing.CollapseLetterRuns: their properties are stated by the `NonWordRuns*` and `LetterRuns*` lemmas rather than by their own contracts.
- The removal of URLs and tags is proved of each step, not of the output of `clean`. A later step can create a new match. In "<a\nb>", `.` does not match the newline, so the tag survives the tag step, and `' '.join(text.split())` then turns it into "<a b>", which `<.*?>` matches. Python behaves the same way, so `Preprocessing.CleanString` does not promise that its result is free of tags or URLs.
- Analyzer.VerdictFollowsCounts: a strict majority is proved to win only below 10000 comments. Beyond that, rounding to two places can hide a lead of one comment, as `Analyzer.RoundingCanHideLead` shows.
- The unit test with the emoji input (`tests/unit/test_textprocessor.py:26-30`) and the complex case (`tests/unit/test_textprocessor.py:77-85`) depend on the emoji table, so they are not stated as examples. The general `Clean` contract covers their lower-case and punctuation assertions.
