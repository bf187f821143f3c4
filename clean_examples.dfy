/**
  The examples of `TextProcessor.clean` in tests/unit/test_textprocessor.py,
  each proved for any emoji table that leaves the example untouched.

  Each `...Example` lemma is the test case. The lemmas after it
  (`...Plain`, `...Lower`, `...Pieces`, `...Words`, `...Tail` and the like)
  are proof-cost helpers: each one computes a single step of `clean` on the
  example's literal, so that no one proof has to unfold several recursive
  functions on a literal at once.
*/
module CleanExamples {
  import opened PyStr
  import opened Preprocessing

  /** The emoji step aside, `clean` lowers `"Really???"` and collapses its
      question marks: `"really?"`. */
  lemma ReallyExample(demojize: string -> string)
    requires demojize("Really???") == "Really???"
    ensures Clean(Str("Really???"), demojize) == "really?"
  {
    var s := "Really???";
    ReallyPlain(s);
    PlainTextUntouched(s);
    var lowered := Strip(Lower(demojize(StripTags(StripUrls(s)))));
    ReallyLower(s, lowered);
    ReallyCollapse(lowered);
    var r := "really?";
    ReallyLetters(r);
    ReallySpaces(r);
    ReallyWords(r);
    CleanOfSteps(s, demojize, lowered, r, r, r, r);
  }

  lemma ReallyPlain(s: string)
    requires s == "Really???"
    ensures NoUrl(s) && '<' !in s
  {
    NoUrlWithoutColonOrDot(s);
  }

  lemma ReallyLower(s: string, lowered: string)
    requires s == "Really???" && lowered == Strip(Lower(s))
    ensures lowered == "really???"
  {
    ReallyLowered(s);
    StripTrimmed("really???");
  }

  lemma ReallyLowered(s: string)
    requires s == "Really???"
    ensures Lower(s) == "really???"
  {
  }

  lemma ReallyCollapse(lowered: string)
    requires lowered == "really???"
    ensures CollapseNonWordRuns(lowered) == "really?"
  {
    var w := "really";
    assert forall i :: 0 <= i < |w| ==> IsWordChar(w[i]);
    assert Run('?', 3) == "???";
    assert lowered == w + Run('?', 3);
    WordCharsKept(w, Run('?', 3));
    NonWordRunToOne('?', 3, []);
    assert Run('?', 3) + [] == Run('?', 3);
  }

  lemma ReallyLetters(s: string)
    requires s == "really?"
    ensures CollapseLetterRuns(s) == s
  {
    LetterRunsIdle(s);
  }

  lemma ReallySpaces(s: string)
    requires s == "really?"
    ensures Join(Split(s)) == s
  {
  }

  lemma ReallyWords(s: string)
    requires s == "really?"
    ensures TruncateWords(s, MaxWords) == s && Strip(s) == s
  {
  }

  /** The emoji step aside, `clean` cuts the run of seven `s` in
      `"yesssssss"` to two: `"yess"`. */
  lemma YesExample(demojize: string -> string)
    requires demojize("yesssssss") == "yesssssss"
    ensures Clean(Str("yesssssss"), demojize) == "yess"
  {
    var s := "yesssssss";
    YesPlain(s);
    PlainTextUntouched(s);
    var lowered := Strip(Lower(demojize(StripTags(StripUrls(s)))));
    YesLower(s, lowered);
    WordCharsKept(lowered, []);
    assert lowered + [] == lowered;
    YesLetters(lowered);
    var r := "yess";
    YesTail(r);
    CleanOfSteps(s, demojize, lowered, lowered, r, r, r);
  }

  lemma YesPlain(s: string)
    requires s == "yesssssss"
    ensures NoUrl(s) && '<' !in s
  {
    NoUrlWithoutColonOrDot(s);
  }

  lemma YesLower(s: string, lowered: string)
    requires s == "yesssssss" && lowered == Strip(Lower(s))
    ensures lowered == "yesssssss"
    ensures forall i :: 0 <= i < |lowered| ==> IsWordChar(lowered[i])
  {
    YesLowered(s);
    StripTrimmed(s);
    YesWordChars(s);
  }

  lemma YesLowered(s: string)
    requires s == "yesssssss"
    ensures Lower(s) == s
  {
    LowerOfLower(s);
  }

  lemma YesWordChars(s: string)
    requires s == "yesssssss"
    ensures forall i :: 0 <= i < |s| ==> IsWordChar(s[i])
  {
  }

  lemma YesLetters(s: string)
    requires s == "yesssssss"
    ensures CollapseLetterRuns(s) == "yess"
  {
    var t := Run('s', 7);
    YesPieces(s, t);
    LetterRunToTwo('s', 7, []);
    assert t + [] == t;
    LetterKept('e', t);
    LetterKept('y', ['e'] + t);
  }

  lemma YesPieces(s: string, t: string)
    requires s == "yesssssss" && t == Run('s', 7)
    ensures s == ['y'] + (['e'] + t) && ['y'] + (['e'] + ['s', 's']) == "yess"
  {
    assert t == "sssssss";
  }

  lemma YesTail(r: string)
    requires r == "yess"
    ensures Join(Split(r)) == r && TruncateWords(r, MaxWords) == r && Strip(r) == r
  {
  }

  /** The emoji step aside, `clean` keeps a double letter and cuts a triple
      one: `"goood"` gives `"good"`. */
  lemma GoodExample(demojize: string -> string)
    requires demojize("goood") == "goood"
    ensures Clean(Str("goood"), demojize) == "good"
  {
    var s := "goood";
    GoodPlain(s);
    PlainTextUntouched(s);
    var lowered := Strip(Lower(demojize(StripTags(StripUrls(s)))));
    GoodLower(s, lowered);
    WordCharsKept(lowered, []);
    assert lowered + [] == lowered;
    GoodLetters(lowered);
    var r := "good";
    GoodTail(r);
    CleanOfSteps(s, demojize, lowered, lowered, r, r, r);
  }

  lemma GoodPlain(s: string)
    requires s == "goood"
    ensures NoUrl(s) && '<' !in s
  {
    NoUrlWithoutColonOrDot(s);
  }

  lemma GoodLower(s: string, lowered: string)
    requires s == "goood" && lowered == Strip(Lower(s))
    ensures lowered == "goood"
    ensures forall i :: 0 <= i < |lowered| ==> IsWordChar(lowered[i])
  {
    GoodLowered(s);
    StripTrimmed(s);
    GoodWordChars(s);
  }

  lemma GoodLowered(s: string)
    requires s == "goood"
    ensures Lower(s) == s
  {
    LowerOfLower(s);
  }

  lemma GoodWordChars(s: string)
    requires s == "goood"
    ensures forall i :: 0 <= i < |s| ==> IsWordChar(s[i])
  {
  }

  lemma GoodLetters(s: string)
    requires s == "goood"
    ensures CollapseLetterRuns(s) == "good"
  {
    var t := Run('o', 3);
    GoodPieces(s, t);
    LetterRunToTwo('o', 3, "d");
    LetterKept('g', t + "d");
    LetterRunDone("d");
  }

  lemma GoodPieces(s: string, t: string)
    requires s == "goood" && t == Run('o', 3)
    ensures s == ['g'] + (t + "d") && ['g'] + (['o', 'o'] + "d") == "good"
  {
    assert t == "ooo";
  }

  lemma LetterRunDone(s: string)
    requires |s| < 3
    ensures CollapseLetterRuns(s) == s
  {
  }

  lemma GoodTail(r: string)
    requires r == "good"
    ensures Join(Split(r)) == r && TruncateWords(r, MaxWords) == r && Strip(r) == r
  {
  }

  /** The emoji step aside, `clean` squeezes runs of spaces:
      `"too    many     spaces"` gives `"too many spaces"`. */
  lemma SpacesExample(demojize: string -> string)
    requires demojize("too    many     spaces") == "too    many     spaces"
    ensures Clean(Str("too    many     spaces"), demojize) == "too many spaces"
  {
    var s := "too    many     spaces";
    SpacesPlain(s);
    PlainTextUntouched(s);
    var lowered := Strip(Lower(demojize(StripTags(StripUrls(s)))));
    SpacesLower(s, lowered);
    var ws := ["too", "many", "spaces"];
    var r := "too many spaces";
    SpacesPunct(lowered, r);
    SpacesWords(ws, r);
    LaterStepsKeep(ws, r);
    CleanOfSteps(s, demojize, lowered, r, r, r, r);
  }

  lemma SpacesPlain(s: string)
    requires s == "too    many     spaces"
    ensures NoUrl(s) && '<' !in s
  {
    NoUrlWithoutColonOrDot(s);
  }

  lemma SpacesLower(s: string, lowered: string)
    requires s == "too    many     spaces" && lowered == Strip(Lower(s))
    ensures lowered == "too    many     spaces"
  {
    SpacesLowered(s);
    StripTrimmed(s);
  }

  lemma SpacesLowered(s: string)
    requires s == "too    many     spaces"
    ensures Lower(s) == s
  {
    LowerOfLower(s);
  }

  lemma SpacesPunct(lowered: string, r: string)
    requires lowered == "too    many     spaces" && r == "too many spaces"
    ensures CollapseNonWordRuns(lowered) == r
  {
    var four, five := Run(' ', 4), Run(' ', 5);
    SpacesPieces(lowered, r, four, five);
    WordCharsKept("spaces", []);
    GapToOne("many", 5, "spaces");
    GapToOne("too", 4, "many" + (five + "spaces"));
  }

  lemma SpacesPieces(lowered: string, r: string, four: string, five: string)
    requires lowered == "too    many     spaces" && r == "too many spaces"
    requires four == Run(' ', 4) && five == Run(' ', 5)
    ensures lowered == "too" + (four + ("many" + (five + "spaces")))
    ensures r == "too" + ([' '] + ("many" + ([' '] + "spaces")))
    ensures "spaces" + [] == "spaces" && CollapseNonWordRuns([]) == []
    ensures forall i :: 0 <= i < 3 ==> IsWordChar("too"[i])
    ensures forall i :: 0 <= i < 4 ==> IsWordChar("many"[i])
    ensures forall i :: 0 <= i < 6 ==> IsWordChar("spaces"[i])
  {
    assert four == "    ";
    assert five == "     ";
  }

  lemma SpacesWords(ws: seq<string>, r: string)
    requires ws == ["too", "many", "spaces"] && r == "too many spaces"
    ensures AllTokens(ws) && r == Join(ws) && NoLetterTriple(r)
  {
    JoinThree("too", "many", "spaces");
  }

  /** The emoji step aside, `clean` strips the ends:
      `"   spaces around   "` gives `"spaces around"`. */
  lemma AroundExample(demojize: string -> string)
    requires demojize("   spaces around   ") == "   spaces around   "
    ensures Clean(Str("   spaces around   "), demojize) == "spaces around"
  {
    var s := "   spaces around   ";
    AroundPlain(s);
    PlainTextUntouched(s);
    var lowered := Strip(Lower(demojize(StripTags(StripUrls(s)))));
    AroundLower(s, lowered);
    var ws := ["spaces", "around"];
    AroundWords(ws, lowered);
    WordsKept(ws);
    LaterStepsKeep(ws, lowered);
    CleanOfSteps(s, demojize, lowered, lowered, lowered, lowered, lowered);
  }

  lemma AroundPlain(s: string)
    requires s == "   spaces around   "
    ensures NoUrl(s) && '<' !in s
  {
    NoUrlWithoutColonOrDot(s);
  }

  lemma AroundLower(s: string, lowered: string)
    requires s == "   spaces around   " && lowered == Strip(Lower(s))
    ensures lowered == "spaces around"
  {
    AroundPieces(s);
    LowerOfLower(s);
    StripPadded("   ", "spaces around", "   ");
  }

  lemma AroundPieces(s: string)
    requires s == "   spaces around   "
    ensures forall i :: 0 <= i < |s| ==> !IsUpper(s[i])
    ensures s == "   " + "spaces around" + "   "
    ensures forall i :: 0 <= i < 3 ==> IsSpace("   "[i])
    ensures !IsSpace("spaces around"[0]) && !IsSpace("spaces around"[12])
  {
  }

  lemma AroundWords(ws: seq<string>, r: string)
    requires ws == ["spaces", "around"] && r == "spaces around"
    ensures AllTokens(ws) && r == Join(ws) && NoLetterTriple(r)
    ensures forall k, i :: 0 <= k < |ws| && 0 <= i < |ws[k]| ==> IsWordChar(ws[k][i])
    ensures forall k :: 0 <= k < |ws| ==> ws[k] != []
  {
    assert Join(ws[1..]) == "around";
  }

  /** `clean` of whitespace alone is the empty string. */
  lemma BlankCleansToEmpty(s: string, demojize: string -> string)
    requires forall i :: 0 <= i < |s| ==> IsSpace(s[i])
    requires demojize(s) == s
    ensures Clean(Str(s), demojize) == ""
  {
    assert ':' !in s && '.' !in s && '<' !in s by {
      forall i | 0 <= i < |s| ensures s[i] != ':' && s[i] != '.' && s[i] != '<' {
        assert IsSpace(s[i]);
      }
    }
    NoUrlWithoutColonOrDot(s);
    PlainTextUntouched(s);
    LowerOfLower(s);
    StripEmpty(s);
    var lowered := Strip(Lower(demojize(StripTags(StripUrls(s)))));
    assert lowered == [];
    LaterStepsKeep([], lowered);
    CleanOfSteps(s, demojize, lowered, lowered, lowered, lowered, lowered);
  }

  /** The test case: four spaces. */
  lemma BlankExample(demojize: string -> string)
    requires demojize("    ") == "    "
    ensures Clean(Str("    "), demojize) == ""
  {
    BlankFacts("    ");
    BlankCleansToEmpty("    ", demojize);
  }

  lemma BlankFacts(s: string)
    requires s == "    "
    ensures forall i :: 0 <= i < |s| ==> IsSpace(s[i])
  {
  }

  /** The emoji step aside, `clean` deletes the tags and lowers:
      `"This is <b>bold</b> text"` gives `"this is bold text"`. */
  lemma HtmlExample(demojize: string -> string)
    requires demojize("This is bold text") == "This is bold text"
    ensures Clean(Str("This is <b>bold</b> text"), demojize) == "this is bold text"
  {
    var s := "This is <b>bold</b> text";
    HtmlNoUrl(s);
    UrlFreeUntouched(s);
    var noTags := "This is bold text";
    HtmlTags(s, noTags);
    var lowered := Strip(Lower(demojize(StripTags(StripUrls(s)))));
    HtmlLower(noTags, lowered);
    var ws := ["this", "is", "bold", "text"];
    HtmlWords(ws, lowered);
    WordsKept(ws);
    LaterStepsKeep(ws, lowered);
    CleanOfSteps(s, demojize, lowered, lowered, lowered, lowered, lowered);
  }

  lemma HtmlNoUrl(s: string)
    requires s == "This is <b>bold</b> text"
    ensures NoUrl(s)
  {
    NoUrlWithoutColonOrDot(s);
  }

  lemma HtmlTags(s: string, noTags: string)
    requires s == "This is <b>bold</b> text" && noTags == "This is bold text"
    ensures StripTags(s) == noTags
  {
    HtmlPieces(s, noTags);
    TwoTagsDropped("This is ", "b", "bold", "/b", " text");
  }

  lemma HtmlPieces(s: string, noTags: string)
    requires s == "This is <b>bold</b> text" && noTags == "This is bold text"
    ensures s == "This is " + ("<" + "b" + ">" + ("bold" + ("<" + "/b" + ">" + " text")))
    ensures noTags == "This is " + ("bold" + " text")
    ensures '<' !in "This is " && '<' !in "bold" && '<' !in " text"
    ensures '>' !in "b" && '\n' !in "b" && '>' !in "/b" && '\n' !in "/b"
  {
  }

  /** Text, tag, text, tag, text: the tag step deletes the two tags. */
  lemma TwoTagsDropped(a: string, x: string, b: string, y: string, c: string)
    requires '<' !in a && '<' !in b && '<' !in c
    requires '>' !in x && '\n' !in x && '>' !in y && '\n' !in y
    ensures StripTags(a + ("<" + x + ">" + (b + ("<" + y + ">" + c)))) == a + (b + c)
  {
    TagsKeptBefore(c, []);
    assert c + [] == c && StripTags([]) == [];
    TagDropped(y, c);
    TagsKeptBefore(b, "<" + y + ">" + c);
    TagDropped(x, b + ("<" + y + ">" + c));
    TagsKeptBefore(a, "<" + x + ">" + (b + ("<" + y + ">" + c)));
  }

  lemma HtmlLower(noTags: string, lowered: string)
    requires noTags == "This is bold text" && lowered == Strip(Lower(noTags))
    ensures lowered == "this is bold text"
  {
    HtmlLowered(noTags);
    StripTrimmed("this is bold text");
  }

  lemma HtmlLowered(noTags: string)
    requires noTags == "This is bold text"
    ensures Lower(noTags) == "this is bold text"
  {
  }

  lemma HtmlWords(ws: seq<string>, r: string)
    requires ws == ["this", "is", "bold", "text"] && r == "this is bold text"
    ensures AllTokens(ws) && r == Join(ws) && NoLetterTriple(r)
    ensures forall k, i :: 0 <= k < |ws| && 0 <= i < |ws[k]| ==> IsWordChar(ws[k][i])
    ensures forall k :: 0 <= k < |ws| ==> ws[k] != []
  {
    HtmlJoin(ws, r);
    HtmlNoTriple(r);
    HtmlWordChars(ws);
  }

  lemma HtmlJoin(ws: seq<string>, r: string)
    requires ws == ["this", "is", "bold", "text"] && r == "this is bold text"
    ensures AllTokens(ws) && r == Join(ws)
  {
    JoinFour("this", "is", "bold", "text");
  }

  lemma HtmlNoTriple(r: string)
    requires r == "this is bold text"
    ensures NoLetterTriple(r)
  {
  }

  lemma HtmlWordChars(ws: seq<string>)
    requires ws == ["this", "is", "bold", "text"]
    ensures forall k, i :: 0 <= k < |ws| && 0 <= i < |ws[k]| ==> IsWordChar(ws[k][i])
    ensures forall k :: 0 <= k < |ws| ==> ws[k] != []
  {
  }

  lemma JoinThree(a: string, b: string, c: string)
    ensures Join([a, b, c]) == a + " " + (b + " " + c)
  {
    assert [a, b, c][1..] == [b, c];
    assert [b, c][1..] == [c];
    assert Join([c]) == c;
    assert Join([b, c]) == b + " " + c;
  }

  lemma JoinFour(a: string, b: string, c: string, d: string)
    ensures Join([a, b, c, d]) == a + " " + (b + " " + (c + " " + d))
  {
    assert [a, b, c, d][1..] == [b, c, d];
    JoinThree(b, c, d);
  }

  /** The emoji step aside, `clean` deletes a link up to the next space:
      `"Check this out https://example.com amazing!"` gives
      `"check this out amazing!"`. */
  lemma UrlExample(demojize: string -> string)
    requires demojize("Check this out  amazing!") == "Check this out  amazing!"
    ensures Clean(Str("Check this out https://example.com amazing!"), demojize) == "check this out amazing!"
  {
    var s := "Check this out https://example.com amazing!";
    var noUrls := "Check this out  amazing!";
    UrlStep(s, noUrls);
    UrlNoTags(noUrls);
    TagsKeptBefore(noUrls, []);
    assert noUrls + [] == noUrls;
    var lowered := Strip(Lower(demojize(StripTags(StripUrls(s)))));
    UrlLower(noUrls, lowered);
    var r := "check this out amazing!";
    UrlPunct(lowered, r);
    var ws := ["check", "this", "out", "amazing!"];
    UrlWords(ws, r);
    LaterStepsKeep(ws, r);
    CleanOfSteps(s, demojize, lowered, r, r, r, r);
  }

  lemma UrlStep(s: string, noUrls: string)
    requires s == "Check this out https://example.com amazing!" && noUrls == "Check this out  amazing!"
    ensures StripUrls(s) == noUrls
  {
    UrlPieces(s, noUrls);
    UrlPlainParts();
    UrlStepOfPieces(s, "Check this out ", "example.com", " amazing!");
  }

  /** The URL step on text, link, text. */
  lemma UrlStepOfPieces(s: string, w: string, x: string, t: string)
    requires s == w + ("https://" + x + t)
    requires IsToken(x) && t != [] && IsSpace(t[0])
    requires forall i :: 0 <= i < |w| && (w[i] == 'h' || w[i] == 'w') ==> i + 1 < |w| && w[i + 1] != 't' && w[i + 1] != 'w'
    requires forall i :: 0 <= i < |t| && (t[i] == 'h' || t[i] == 'w') ==> i + 1 < |t| && t[i + 1] != 't' && t[i + 1] != 'w'
    ensures StripUrls(s) == w + t
  {
    UrlsKeptBefore(t, []);
    assert t + [] == t;
    UrlDropped(x, t);
    UrlsKeptBefore(w, "https://" + x + t);
  }

  lemma UrlPieces(s: string, noUrls: string)
    requires s == "Check this out https://example.com amazing!" && noUrls == "Check this out  amazing!"
    ensures s == "Check this out " + ("https://" + "example.com" + " amazing!")
    ensures noUrls == "Check this out " + " amazing!"
  {
    UrlLinkPieces(s);
    UrlGapPieces(noUrls);
  }

  lemma UrlLinkPieces(s: string)
    requires s == "Check this out https://example.com amazing!"
    ensures s == "Check this out " + ("https://" + "example.com" + " amazing!")
  {
  }

  lemma UrlGapPieces(noUrls: string)
    requires noUrls == "Check this out  amazing!"
    ensures noUrls == "Check this out " + " amazing!"
  {
  }

  lemma UrlPlainParts()
    ensures IsToken("example.com") && IsSpace(" amazing!"[0])
    ensures var w := "Check this out ";
      forall i :: 0 <= i < |w| && (w[i] == 'h' || w[i] == 'w') ==> i + 1 < |w| && w[i + 1] != 't' && w[i + 1] != 'w'
    ensures var w := " amazing!";
      forall i :: 0 <= i < |w| && (w[i] == 'h' || w[i] == 'w') ==> i + 1 < |w| && w[i + 1] != 't' && w[i + 1] != 'w'
  {
  }

  lemma UrlNoTags(noUrls: string)
    requires noUrls == "Check this out  amazing!"
    ensures '<' !in noUrls
  {
  }

  lemma UrlLower(noUrls: string, lowered: string)
    requires noUrls == "Check this out  amazing!" && lowered == Strip(Lower(noUrls))
    ensures lowered == "check this out  amazing!"
  {
    UrlLowered(noUrls);
    StripTrimmed("check this out  amazing!");
  }

  lemma UrlLowered(noUrls: string)
    requires noUrls == "Check this out  amazing!"
    ensures Lower(noUrls) == "check this out  amazing!"
  {
  }

  lemma UrlPunct(lowered: string, r: string)
    requires lowered == "check this out  amazing!" && r == "check this out amazing!"
    ensures CollapseNonWordRuns(lowered) == r
  {
    var one, two := Run(' ', 1), Run(' ', 2);
    UrlPunctPieces(lowered, r, one, two);
    WordCharsKept("amazing", "!");
    GapToOne("out", 2, "amazing" + "!");
    GapToOne("this", 1, "out" + (two + ("amazing" + "!")));
    GapToOne("check", 1, "this" + (one + ("out" + (two + ("amazing" + "!")))));
  }

  lemma UrlPunctPieces(lowered: string, r: string, one: string, two: string)
    requires lowered == "check this out  amazing!" && r == "check this out amazing!"
    requires one == Run(' ', 1) && two == Run(' ', 2)
    ensures lowered == "check" + (one + ("this" + (one + ("out" + (two + ("amazing" + "!"))))))
    ensures r == "check" + ([' '] + ("this" + ([' '] + ("out" + ([' '] + ("amazing" + "!"))))))
    ensures CollapseNonWordRuns("!") == "!"
    ensures forall i :: 0 <= i < 5 ==> IsWordChar("check"[i])
    ensures forall i :: 0 <= i < 4 ==> IsWordChar("this"[i])
    ensures forall i :: 0 <= i < 3 ==> IsWordChar("out"[i])
    ensures forall i :: 0 <= i < 7 ==> IsWordChar("amazing"[i])
  {
    assert one == " ";
    assert two == "  ";
  }

  lemma UrlWords(ws: seq<string>, r: string)
    requires ws == ["check", "this", "out", "amazing!"] && r == "check this out amazing!"
    ensures AllTokens(ws) && r == Join(ws) && NoLetterTriple(r)
  {
    UrlJoin(ws, r);
    UrlNoTriple(r);
  }

  lemma UrlJoin(ws: seq<string>, r: string)
    requires ws == ["check", "this", "out", "amazing!"] && r == "check this out amazing!"
    ensures AllTokens(ws) && r == Join(ws)
  {
    JoinFour("check", "this", "out", "amazing!");
  }

  lemma UrlNoTriple(r: string)
    requires r == "check this out amazing!"
    ensures NoLetterTriple(r)
  {
  }

  /** The examples of `is_valid`: two characters suffice, while the empty
      string, whitespace, a single character and a non-string fail. */
  lemma IsValidExamples(sentence: string, ok: string, no: string, empty: string, spaces: string,
                        tab: string, newline: string, letter: string, mark: string)
    requires sentence == "this is valid" && ok == "ok" && no == "no"
    requires empty == "" && spaces == "   " && tab == "\t" && newline == "\n"
    requires letter == "a" && mark == "?"
    ensures IsValid(Str(sentence)) && IsValid(Str(ok)) && IsValid(Str(no))
    ensures !IsValid(Str(empty)) && !IsValid(Str(spaces)) && !IsValid(Str(tab)) && !IsValid(Str(newline))
    ensures !IsValid(Str(letter)) && !IsValid(Str(mark)) && !IsValid(NonString)
  {
    ValidFromFront(sentence);
    ValidFromFront(ok);
    ValidFromFront(no);
    InvalidWhenBlank(spaces);
    InvalidWhenBlank(tab);
    InvalidWhenBlank(newline);
    InvalidWhenShort(empty);
    InvalidWhenShort(letter);
    InvalidWhenShort(mark);
  }

  lemma ValidFromFront(s: string)
    requires |s| >= 2 && !IsSpace(s[0]) && !IsSpace(s[1])
    ensures IsValid(Str(s))
  {
    assert 0 < 1 < |s|;
  }

  lemma InvalidWhenBlank(s: string)
    requires forall i :: 0 <= i < |s| ==> IsSpace(s[i])
    ensures !IsValid(Str(s))
  {
  }

  lemma InvalidWhenShort(s: string)
    requires |s| <= 1
    ensures !IsValid(Str(s))
  {
  }

  /** The emoji step aside, a comment that is only a link cleans to the
      empty string, which is not valid. */
  lemma OnlyUrlExample(demojize: string -> string)
    requires demojize("") == ""
    ensures Clean(Str("https://only-url.com"), demojize) == ""
    ensures !IsValid(Str(Clean(Str("https://only-url.com"), demojize)))
  {
    var s := "https://only-url.com";
    OnlyUrlPieces(s);
    UrlDropped("only-url.com", []);
    var lowered := Strip(Lower(demojize(StripTags(StripUrls(s)))));
    assert StripTags([]) == [];
    assert Lower([]) == [];
    assert lowered == [];
    LaterStepsKeep([], lowered);
    CleanOfSteps(s, demojize, lowered, lowered, lowered, lowered, lowered);
  }

  lemma OnlyUrlPieces(s: string)
    requires s == "https://only-url.com"
    ensures s == "https://" + "only-url.com" + [] && IsToken("only-url.com")
  {
  }
}
