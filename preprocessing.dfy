/**
  The text normaliser `TextProcessor` (src/models/preprocessing.py): `clean`
  rewrites a comment into canonical form through a fixed chain of regular
  expression substitutions; `is_valid` decides whether the result is worth
  classifying. Every substitution is a recursive function that scans the
  string left to right exactly as `re.sub` does.
*/
module Preprocessing {
  import opened PyStr

  // ---------------------------------------------------------------------------
  // Step 1: `https?://\S+|www\.\S+` replaced by the empty string

  /** Length of the literal part of a URL match at the start of `s`
      (`https://`, `http://` or `www.`), or 0 when none starts there. */
  function UrlPrefixLength(s: string): (k: nat)
    ensures k == 0 || k == 4 || k == 7 || k == 8
    ensures k <= |s|
  {
    if |s| >= 8 && s[..8] == "https://" then 8
    else if |s| >= 7 && s[..7] == "http://" then 7
    else if |s| >= 4 && s[..4] == "www." then 4
    else 0
  }

  /** A URL match starts at the beginning of `s`: the literal part followed by
      at least one non-whitespace character (`\S+`). */
  predicate UrlAt(s: string) {
    var k := UrlPrefixLength(s);
    0 < k < |s| && !IsSpace(s[k])
  }

  /** No position of `s` starts a URL match. */
  predicate NoUrl(s: string) {
    forall i :: 0 <= i <= |s| ==> !UrlAt(s[i..])
  }

  /** The literal parts `https://`, `http://` and `www.` hold no whitespace. */
  lemma UrlLiteralNoSpace(s: string)
    requires UrlPrefixLength(s) > 0
    ensures forall i :: 0 <= i < UrlPrefixLength(s) ==> !IsSpace(s[i])
  {
    var k := UrlPrefixLength(s);
    assert forall i :: 0 <= i < k ==> s[i] == s[..k][i];
    assert forall i :: 0 <= i < 8 ==> !IsSpace("https://"[i]);
    assert forall i :: 0 <= i < 7 ==> !IsSpace("http://"[i]);
    assert forall i :: 0 <= i < 4 ==> !IsSpace("www."[i]);
  }

  /** A URL match covers at least its literal part and one more character. */
  lemma UrlStartsWithNonSpace(s: string)
    requires UrlAt(s)
    ensures s != [] && !IsSpace(s[0]) && NonSpaceRun(s) > UrlPrefixLength(s)
  {
    UrlLiteralNoSpace(s);
  }

  /** `url_pattern.sub("", text)`: a match runs from the literal part to the
      next whitespace (greedy `\S+`) and is deleted; scanning resumes there. */
  function StripUrls(s: string): (r: string)
    ensures |r| <= |s|
    decreases |s|
  {
    if s == [] then []
    else if UrlAt(s) then
      UrlStartsWithNonSpace(s);
      StripUrls(s[NonSpaceRun(s)..])
    else [s[0]] + StripUrls(s[1..])
  }

  /** A string that begins with whitespace keeps it at the front. */
  lemma StripUrlsAtSpace(s: string)
    requires s != [] && IsSpace(s[0])
    ensures StripUrls(s) != [] && IsSpace(StripUrls(s)[0])
  {
    if UrlAt(s) {
      UrlStartsWithNonSpace(s);
    }
  }

  /** As long as the result starts with non-whitespace, it agrees with the
      input: a removed URL is always followed by whitespace or the end. */
  lemma {:induction false} StripUrlsKeepsFront(s: string, k: nat)
    requires k <= |StripUrls(s)|
    requires forall i :: 0 <= i < k ==> !IsSpace(StripUrls(s)[i])
    ensures k <= |s| && StripUrls(s)[..k] == s[..k]
    decreases |s|
  {
    if k > 0 && s != [] {
      if UrlAt(s) {
        UrlStartsWithNonSpace(s);
        var rest := s[NonSpaceRun(s)..];
        if rest != [] {
          StripUrlsAtSpace(rest);
        }
        assert false;
      } else {
        var tail := StripUrls(s[1..]);
        assert StripUrls(s) == [s[0]] + tail;
        assert forall i :: 0 <= i < k - 1 ==> tail[i] == StripUrls(s)[i + 1];
        StripUrlsKeepsFront(s[1..], k - 1);
        assert StripUrls(s)[..k] == [s[0]] + tail[..k - 1];
        assert s[..k] == [s[0]] + s[1..][..k - 1];
      }
    }
  }

  /** Whether a URL match starts at the front depends only on the first
      `UrlPrefixLength + 1` characters. */
  lemma UrlAtFromFront(a: string, b: string)
    requires UrlAt(a)
    requires UrlPrefixLength(a) + 1 <= |b|
    requires a[..UrlPrefixLength(a) + 1] == b[..UrlPrefixLength(a) + 1]
    ensures UrlAt(b)
  {
    var k := UrlPrefixLength(a);
    forall i | 0 <= i <= k ensures a[i] == b[i] {
      assert a[i] == a[..k + 1][i];
      assert b[i] == b[..k + 1][i];
    }
    assert a[..k] == b[..k];
    if k == 7 {
      assert a[4] == ':';
      assert b[4] == ':';
    } else if k == 4 {
      assert a[0] == 'w';
      assert b[0] == 'w';
    }
    assert UrlPrefixLength(b) == k;
  }

  /** No URL match survives the substitution. */
  lemma {:induction false} StripUrlsRemovesAll(s: string)
    ensures NoUrl(StripUrls(s))
    decreases |s|
  {
    if s != [] {
      if UrlAt(s) {
        UrlStartsWithNonSpace(s);
        StripUrlsRemovesAll(s[NonSpaceRun(s)..]);
      } else {
        var r := StripUrls(s);
        var tail := StripUrls(s[1..]);
        StripUrlsRemovesAll(s[1..]);
        assert r == [s[0]] + tail;
        forall i | 1 <= i <= |r| ensures !UrlAt(r[i..]) {
          assert r[i..] == tail[i - 1..];
        }
        if UrlAt(r) {
          var k := UrlPrefixLength(r);
          assert r[..k] == r[..k + 1][..k];
          forall i | 0 <= i < k + 1 ensures !IsSpace(r[i]) {
            if i < k {
              assert r[i] == r[..k][i];
            }
          }
          StripUrlsKeepsFront(s, k + 1);
          UrlAtFromFront(r, s);
        }
      }
    }
  }

  // ---------------------------------------------------------------------------
  // Step 2: `<.*?>` replaced by the empty string (`.` is anything but a newline)

  /** Index of the first `>` in `t` that comes before any newline, or -1. */
  function TagClose(t: string): (k: int)
    ensures -1 <= k < |t|
    ensures k >= 0 ==> t[k] == '>' && forall i :: 0 <= i < k ==> t[i] != '>' && t[i] != '\n'
    ensures k == -1 ==> forall i :: 0 <= i < |t| && t[i] == '>' ==> exists l :: 0 <= l < i && t[l] == '\n'
  {
    if t == [] || t[0] == '\n' then -1
    else if t[0] == '>' then 0
    else
      var k := TagClose(t[1..]);
      if k < 0 then -1 else k + 1
  }

  /** A tag match starts at the beginning of `s`. */
  predicate TagAt(s: string) {
    s != [] && s[0] == '<' && TagClose(s[1..]) >= 0
  }

  /** No position of `s` starts a tag match. */
  predicate NoTag(s: string) {
    forall i :: 0 <= i <= |s| ==> !TagAt(s[i..])
  }

  /** `html_tags_pattern.sub("", text)`: a match is the shortest `<...>` with
      no newline inside; it is deleted and scanning resumes after it. */
  function StripTags(s: string): (r: string)
    ensures |r| <= |s|
    decreases |s|
  {
    if TagAt(s) then StripTags(s[TagClose(s[1..]) + 2..])
    else if s == [] then []
    else [s[0]] + StripTags(s[1..])
  }

  /** A string with no `>` before its first newline keeps that property. */
  lemma {:induction false} StripTagsKeepsUnclosed(s: string)
    requires TagClose(s) == -1
    ensures TagClose(StripTags(s)) == -1
    decreases |s|
  {
    if s != [] && s[0] != '\n' {
      assert TagClose(s[1..]) == -1;
      StripTagsKeepsUnclosed(s[1..]);
      assert StripTags(s) == [s[0]] + StripTags(s[1..]);
      assert ([s[0]] + StripTags(s[1..]))[1..] == StripTags(s[1..]);
    }
  }

  /** No tag match survives the substitution. */
  lemma {:induction false} StripTagsRemovesAll(s: string)
    ensures NoTag(StripTags(s))
    decreases |s|
  {
    if TagAt(s) {
      StripTagsRemovesAll(s[TagClose(s[1..]) + 2..]);
    } else if s != [] {
      var r := StripTags(s);
      var tail := StripTags(s[1..]);
      StripTagsRemovesAll(s[1..]);
      assert r == [s[0]] + tail;
      forall i | 1 <= i <= |r| ensures !TagAt(r[i..]) {
        assert r[i..] == tail[i - 1..];
      }
      if s[0] == '<' {
        StripTagsKeepsUnclosed(s[1..]);
        assert r[1..] == tail;
      }
    }
  }

  // ---------------------------------------------------------------------------
  // Steps 5 and 6: run collapsing

  /** No two equal non-word characters are adjacent. */
  predicate NoRepeatedNonWord(s: string) {
    forall i :: 0 <= i < |s| - 1 && !IsWordChar(s[i]) ==> s[i + 1] != s[i]
  }

  /** No three equal letters are adjacent. */
  predicate NoLetterTriple(s: string) {
    forall i :: 0 <= i < |s| - 2 && IsLetter(s[i]) && s[i + 1] == s[i] ==> s[i + 2] != s[i]
  }

  predicate NoUpperCase(s: string) {
    forall i :: 0 <= i < |s| ==> !IsUpper(s[i])
  }

  /** `re.sub(r'(\W)\1+', r'\1', text)`: every run of two or more equal
      non-word characters becomes one (its properties are the lemmas
      `NonWordRunsChars`, `NonWordRunsGone` and `NonWordRunsIdle`). */
  function CollapseNonWordRuns(s: string): (r: string)
    decreases |s|
  {
    if |s| < 2 then s
    else if !IsWordChar(s[0]) && s[1] == s[0] then CollapseNonWordRuns(s[1..])
    else [s[0]] + CollapseNonWordRuns(s[1..])
  }

  /** Each dropped character equals the one after it: the first character
      and the set of characters are unchanged. */
  lemma {:induction false} NonWordRunsChars(s: string)
    ensures var r := CollapseNonWordRuns(s);
      && |r| <= |s|
      && (s != [] ==> r != [] && r[0] == s[0])
      && forall c :: c in r <==> c in s
    decreases |s|
  {
    if |s| >= 2 {
      var t := s[1..];
      NonWordRunsChars(t);
      assert s == [s[0]] + t;
      assert t[0] == s[1];
    }
  }

  /** No run of equal non-word characters survives. */
  lemma {:induction false} NonWordRunsGone(s: string)
    ensures NoRepeatedNonWord(CollapseNonWordRuns(s))
    decreases |s|
  {
    if |s| >= 2 {
      var t := s[1..];
      NonWordRunsGone(t);
      NonWordRunsChars(t);
      if !(!IsWordChar(s[0]) && s[1] == s[0]) {
        var u := CollapseNonWordRuns(t);
        var r := [s[0]] + u;
        assert forall i :: 1 <= i < |r| ==> r[i] == u[i - 1];
        assert r[1] == s[1];
      }
    }
  }

  /** A string without such runs is left as it is. */
  lemma {:induction false} NonWordRunsIdle(s: string)
    requires NoRepeatedNonWord(s)
    ensures CollapseNonWordRuns(s) == s
    decreases |s|
  {
    if |s| >= 2 {
      var t := s[1..];
      assert forall i :: 0 <= i < |t| ==> t[i] == s[i + 1];
      NonWordRunsIdle(t);
      assert s == [s[0]] + t;
    }
  }

  /** `re.sub(r'([a-zA-Z])\1{2,}', r'\1\1', text)`: every run of three or more
      equal letters becomes two (its properties are the lemmas
      `LetterRunsChars`, `LetterRunsGone`, `LetterRunsIdle` and
      `LetterRunsKeepNonWord`). */
  function CollapseLetterRuns(s: string): (r: string)
    decreases |s|
  {
    if |s| < 3 then s
    else if IsLetter(s[0]) && s[1] == s[0] && s[2] == s[0] then CollapseLetterRuns(s[1..])
    else [s[0]] + CollapseLetterRuns(s[1..])
  }

  /** The first two characters are kept and no character is introduced. */
  lemma {:induction false} LetterRunsChars(s: string)
    ensures var r := CollapseLetterRuns(s);
      && |r| <= |s|
      && (|s| <= 2 ==> r == s)
      && (|s| > 2 ==> |r| >= 2 && r[..2] == s[..2])
      && forall c :: c in r ==> c in s
    decreases |s|
  {
    if |s| >= 3 {
      var t := s[1..];
      LetterRunsChars(t);
      assert s == [s[0]] + t;
      assert t[..2] == s[1..3];
    }
  }

  /** No run of three equal letters survives. */
  lemma {:induction false} LetterRunsGone(s: string)
    ensures NoLetterTriple(CollapseLetterRuns(s))
    decreases |s|
  {
    if |s| >= 3 {
      var t := s[1..];
      LetterRunsGone(t);
      LetterRunsChars(t);
      if !(IsLetter(s[0]) && s[1] == s[0] && s[2] == s[0]) {
        var u := CollapseLetterRuns(t);
        var r := [s[0]] + u;
        assert u[..2] == t[..2];
        assert forall i :: 1 <= i < |r| ==> r[i] == u[i - 1];
        assert r[1] == s[1] && r[2] == s[2];
      }
    }
  }

  /** A string without such runs is left as it is. */
  lemma {:induction false} LetterRunsIdle(s: string)
    requires NoLetterTriple(s)
    ensures CollapseLetterRuns(s) == s
    decreases |s|
  {
    if |s| >= 3 {
      var t := s[1..];
      assert forall i :: 0 <= i < |t| ==> t[i] == s[i + 1];
      LetterRunsIdle(t);
      assert s == [s[0]] + t;
    }
  }

  /** Collapsing letters creates no run of equal non-word characters. */
  lemma {:induction false} LetterRunsKeepNonWord(s: string)
    requires NoRepeatedNonWord(s)
    ensures NoRepeatedNonWord(CollapseLetterRuns(s))
    decreases |s|
  {
    if |s| >= 3 {
      var t := s[1..];
      assert forall i :: 0 <= i < |t| ==> t[i] == s[i + 1];
      LetterRunsKeepNonWord(t);
      LetterRunsChars(t);
      if !(IsLetter(s[0]) && s[1] == s[0] && s[2] == s[0]) {
        var u := CollapseLetterRuns(t);
        var r := [s[0]] + u;
        assert u[..2] == t[..2];
        assert forall i :: 1 <= i < |r| ==> r[i] == u[i - 1];
        assert r[1] == s[1];
      }
    }
  }

  /** `k` copies of `c`. */
  function Run(c: char, k: nat): (r: string)
    ensures |r| == k && forall i :: 0 <= i < k ==> r[i] == c
  {
    if k == 0 then [] else [c] + Run(c, k - 1)
  }

  /** A maximal run of a non-word character, of any length, becomes one
      character: `"???"` gives `"?"`. */
  lemma {:induction false} NonWordRunToOne(c: char, k: nat, rest: string)
    requires !IsWordChar(c) && k >= 1
    requires rest == [] || rest[0] != c
    ensures CollapseNonWordRuns(Run(c, k) + rest) == [c] + CollapseNonWordRuns(rest)
  {
    var s := Run(c, k) + rest;
    if k == 1 {
      assert s == [c] + rest;
      if |s| >= 2 {
        assert s[1..] == rest;
      }
    } else {
      assert s[1..] == Run(c, k - 1) + rest;
      NonWordRunToOne(c, k - 1, rest);
    }
  }

  /** Word characters are never part of a collapsed run. */
  lemma {:induction false} WordCharsKept(w: string, t: string)
    requires forall i :: 0 <= i < |w| ==> IsWordChar(w[i])
    ensures CollapseNonWordRuns(w + t) == w + CollapseNonWordRuns(t)
  {
    if w != [] {
      var s := w + t;
      assert s[0] == w[0] && s[1..] == w[1..] + t;
      WordCharKept(s);
      WordCharsKept(w[1..], t);
      Regroup(CollapseNonWordRuns(s), CollapseNonWordRuns(s[1..]), w[0], w[1..], CollapseNonWordRuns(t), w);
    } else {
      assert w + t == t;
    }
  }

  lemma WordCharKept(s: string)
    requires s != [] && IsWordChar(s[0])
    ensures CollapseNonWordRuns(s) == [s[0]] + CollapseNonWordRuns(s[1..])
  {
    if |s| == 1 {
      assert s[1..] == [];
    }
  }

  /** A word followed by a run of spaces: the run becomes one space. */
  lemma GapToOne(w: string, k: nat, t: string)
    requires forall i :: 0 <= i < |w| ==> IsWordChar(w[i])
    requires k >= 1 && (t == [] || t[0] != ' ')
    ensures CollapseNonWordRuns(w + (Run(' ', k) + t)) == w + ([' '] + CollapseNonWordRuns(t))
  {
    WordCharsKept(w, Run(' ', k) + t);
    NonWordRunToOne(' ', k, t);
  }

  /** A character followed by a different one is never part of a letter
      run. */
  lemma LetterKept(c: char, t: string)
    requires t == [] || t[0] != c
    ensures CollapseLetterRuns([c] + t) == [c] + CollapseLetterRuns(t)
  {
    var s := [c] + t;
    assert s[1..] == t;
  }

  /** A maximal run of two or more equal letters becomes exactly two:
      `"sssssss"` gives `"ss"`. */
  lemma {:induction false} LetterRunToTwo(c: char, k: nat, rest: string)
    requires IsLetter(c) && k >= 2
    requires rest == [] || rest[0] != c
    ensures CollapseLetterRuns(Run(c, k) + rest) == [c, c] + CollapseLetterRuns(rest)
  {
    var s := Run(c, k) + rest;
    assert s[k..] == rest;
    LetterRunAt(s, c, k);
  }

  /** `LetterRunToTwo` for a string that starts with the run. */
  lemma {:induction false} LetterRunAt(s: string, c: char, k: nat)
    requires IsLetter(c) && 2 <= k <= |s|
    requires forall i :: 0 <= i < k ==> s[i] == c
    requires k == |s| || s[k] != c
    ensures CollapseLetterRuns(s) == [c, c] + CollapseLetterRuns(s[k..])
  {
    if k == 2 {
      assert s == [c, c] + s[2..];
      LetterPair(c, s[2..]);
    } else {
      assert s[0] == c && s[1] == c && s[2] == c;
      assert CollapseLetterRuns(s) == CollapseLetterRuns(s[1..]);
      assert s[1..][k - 1..] == s[k..];
      LetterRunAt(s[1..], c, k - 1);
    }
  }

  lemma LetterPair(c: char, rest: string)
    requires IsLetter(c)
    requires rest == [] || rest[0] != c
    ensures CollapseLetterRuns([c, c] + rest) == [c, c] + CollapseLetterRuns(rest)
  {
    var s := [c, c] + rest;
    if rest == [] {
      assert s == [c, c] && CollapseLetterRuns(rest) == [];
    } else {
      assert s[2] == rest[0];
      assert s[1..] == [c] + rest;
      assert CollapseLetterRuns(s) == [c] + CollapseLetterRuns(s[1..]);
      LetterKept(c, rest);
      Regroup(CollapseLetterRuns(s), CollapseLetterRuns(s[1..]), c, [c], CollapseLetterRuns(rest), [c, c]);
    }
  }

  // ---------------------------------------------------------------------------
  // The canonical form that `clean` produces

  /** A cleaned comment has no upper-case letter, no run of equal non-word
      characters and no run of three equal letters. */
  predicate Canonical(s: string) {
    NoUpperCase(s) && NoRepeatedNonWord(s) && NoLetterTriple(s)
  }

  /** `clean` keeps at most this many words. */
  const MaxWords: nat := 400

  lemma NoUpperOfFewerChars(r: string, s: string)
    requires NoUpperCase(s)
    requires forall c :: c in r ==> c in s
    ensures NoUpperCase(r)
  {
    forall i | 0 <= i < |r| ensures !IsUpper(r[i]) {
      assert r[i] in r;
    }
  }

  /** Gluing two canonical strings with one space keeps the form, as long as
      neither touches the space with whitespace of its own. */
  lemma CanonicalAroundSpace(a: string, b: string)
    requires Canonical(a) && Canonical(b)
    requires a != [] && !IsSpace(a[|a| - 1])
    requires b != [] && !IsSpace(b[0])
    ensures Canonical(a + " " + b)
  {
    var s := a + " " + b;
    var n := |a|;
    assert forall i :: 0 <= i < n ==> s[i] == a[i];
    assert s[n] == ' ';
    assert forall i :: n < i < |s| ==> s[i] == b[i - n - 1];
  }

  /** Every word of a canonical string is canonical. */
  lemma {:induction false} SplitCanonical(s: string)
    requires Canonical(s)
    ensures forall i :: 0 <= i < |Split(s)| ==> Canonical(Split(s)[i])
    decreases |s|
  {
    if s != [] {
      if IsSpace(s[0]) {
        SplitCanonical(s[1..]);
      } else {
        var n := NonSpaceRun(s);
        SplitCanonical(s[n..]);
        assert Split(s) == [s[..n]] + Split(s[n..]);
      }
    }
  }

  /** Canonical words joined with single spaces give a canonical string. */
  lemma {:induction false} JoinCanonical(ws: seq<string>)
    requires AllTokens(ws)
    requires forall i :: 0 <= i < |ws| ==> Canonical(ws[i])
    ensures Canonical(Join(ws))
  {
    if |ws| > 1 {
      var w, j := ws[0], Join(ws[1..]);
      JoinCanonical(ws[1..]);
      JoinNormalized(ws[1..]);
      assert j[0] == j[..|ws[1]|][0];
      CanonicalAroundSpace(w, j);
    }
  }

  /** A normalized string has nothing for `strip` to remove. */
  lemma StripNormalized(s: string)
    requires Normalized(s)
    ensures Strip(s) == s
  {
    assert LStrip(s) == s;
  }

  /** `clean` over a string: URLs, tags, emoji (through the `demojize`
      parameter that stands for `emoji.demojize`), case, runs of punctuation
      and letters, whitespace, and finally the word limit. */
  function CleanString(s: string, demojize: string -> string): (r: string)
    ensures Normalized(r)
    ensures Canonical(r)
    ensures |Split(r)| <= MaxWords
  {
    var noUrls := StripUrls(s);
    var noTags := StripTags(noUrls);
    var lowered := Strip(Lower(demojize(noTags)));
    var punct := CollapseNonWordRuns(lowered);
    var letters := CollapseLetterRuns(punct);
    var spaced := Join(Split(letters));
    var limited := TruncateWords(spaced, MaxWords);
    LowerThenStrip(demojize(noTags));
    CollapsedIsCanonical(lowered);
    NormalizeKeepsCanonical(letters);
    TruncateKeepsCanonical(spaced);
    StripNormalized(limited);
    Strip(limited)
  }

  lemma LowerThenStrip(u: string)
    ensures NoUpperCase(Strip(Lower(u)))
  {
    var x := Lower(u);
    assert NoUpperCase(x);
    var k := |x| - |LStrip(x)|;
    SliceNoUpper(x, k, |Strip(x)|);
  }

  lemma SliceNoUpper(x: string, k: nat, m: nat)
    requires NoUpperCase(x) && k + m <= |x|
    ensures NoUpperCase(x[k..k + m])
  {
    var r := x[k..k + m];
    assert forall i :: 0 <= i < m ==> r[i] == x[k + i];
  }

  lemma CollapsedIsCanonical(lowered: string)
    requires NoUpperCase(lowered)
    ensures Canonical(CollapseLetterRuns(CollapseNonWordRuns(lowered)))
  {
    var punct := CollapseNonWordRuns(lowered);
    NonWordRunsChars(lowered);
    NonWordRunsGone(lowered);
    LetterRunsChars(punct);
    LetterRunsGone(punct);
    LetterRunsKeepNonWord(punct);
    NoUpperOfFewerChars(punct, lowered);
    NoUpperOfFewerChars(CollapseLetterRuns(punct), punct);
  }

  /** `' '.join(text.split())` keeps the canonical form. */
  lemma NormalizeKeepsCanonical(s: string)
    requires Canonical(s)
    ensures Normalized(Join(Split(s))) && Canonical(Join(Split(s)))
  {
    SplitCanonical(s);
    JoinCanonical(Split(s));
    JoinNormalized(Split(s));
  }

  /** Cutting a canonical, normalized string down to its first words keeps
      both properties. */
  lemma TruncateKeepsCanonical(s: string)
    requires Normalized(s) && Canonical(s)
    ensures Normalized(TruncateWords(s, MaxWords)) && Canonical(TruncateWords(s, MaxWords))
  {
    var words := Split(s);
    if |words| > MaxWords {
      SplitCanonical(s);
      JoinCanonical(words[..MaxWords]);
    }
  }

  /** `TextProcessor.clean`: a non-string makes the first substitution raise,
      and the exception handler returns the empty string. */
  function Clean(t: Text, demojize: string -> string): (r: string)
    ensures t.NonString? ==> r == []
    ensures Normalized(r)
    ensures Canonical(r)
    ensures |Split(r)| <= MaxWords
  {
    match t
    case NonString => []
    case Str(s) => CleanString(s, demojize)
  }

  /** Every URL match holds a `:` or a `.`, so text without either holds
      no URL. */
  lemma NoUrlWithoutColonOrDot(s: string)
    requires ':' !in s && '.' !in s
    ensures NoUrl(s)
  {
    forall i | 0 <= i <= |s| ensures !UrlAt(s[i..]) {
      var u := s[i..];
      assert ':' !in u && '.' !in u by {
        forall j | 0 <= j < |u| ensures u[j] in s {
          assert u[j] == s[i + j];
        }
      }
      NoUrlPrefix(u);
    }
  }

  lemma NoUrlPrefix(u: string)
    requires ':' !in u && '.' !in u
    ensures UrlPrefixLength(u) == 0
  {
    if |u| >= 8 { assert u[..8][5] in u; }
    if |u| >= 7 { assert u[..7][4] in u; }
    if |u| >= 4 { assert u[..4][3] in u; }
  }

  /** A URL match begins with `ht` or `ww`. */
  lemma UrlLead(u: string)
    requires UrlAt(u)
    ensures |u| >= 2 && ((u[0] == 'h' && u[1] == 't') || (u[0] == 'w' && u[1] == 'w'))
  {
    var k := UrlPrefixLength(u);
    assert u[..k][0] == u[0] && u[..k][1] == u[1];
  }

  lemma NoUrlLead(s: string)
    requires s != []
    requires s[0] == 'h' || s[0] == 'w' ==> |s| >= 2 && s[1] != 't' && s[1] != 'w'
    ensures !UrlAt(s)
  {
    if UrlAt(s) {
      UrlLead(s);
    }
  }

  /** Text in which no `h` or `w` is followed by `t` or `w` passes the URL
      step untouched, whatever comes after it. */
  lemma {:induction false} UrlsKeptBefore(w: string, t: string)
    requires forall i :: 0 <= i < |w| && (w[i] == 'h' || w[i] == 'w') ==> i + 1 < |w| && w[i + 1] != 't' && w[i + 1] != 'w'
    ensures StripUrls(w + t) == w + StripUrls(t)
  {
    var s := w + t;
    assert s[..|w|] == w && s[|w|..] == t;
    assert forall i :: 0 <= i < |w| ==> s[i] == w[i];
    UrlsKeptFront(s, |w|);
  }

  /** No `h` or `w` among the first `n` characters of `s` is followed by
      `t` or `w` within them. */
  predicate UrlFreeFront(s: string, n: nat) {
    n <= |s| &&
    forall i :: 0 <= i < n && (s[i] == 'h' || s[i] == 'w') ==> i + 1 < n && s[i + 1] != 't' && s[i + 1] != 'w'
  }

  /** `UrlsKeptBefore` for the first `n` characters of a string. */
  lemma {:induction false} UrlsKeptFront(s: string, n: nat)
    requires UrlFreeFront(s, n)
    ensures StripUrls(s) == s[..n] + StripUrls(s[n..])
  {
    if n == 0 {
      assert s[..0] == [] && s[0..] == s;
    } else {
      NoUrlLead(s);
      UrlKeptOne(s);
      UrlFreeFrontShift(s, n);
      UrlsKeptFront(s[1..], n - 1);
      ConsSlices(s, n);
      Regroup(StripUrls(s), StripUrls(s[1..]), s[0], s[1..][..n - 1], StripUrls(s[n..]), s[..n]);
    }
  }

  lemma Regroup<T>(a: seq<T>, b: seq<T>, x: T, p: seq<T>, q: seq<T>, front: seq<T>)
    requires a == [x] + b && b == p + q && front == [x] + p
    ensures a == front + q
  {
  }

  lemma UrlFreeFrontShift(s: string, n: nat)
    requires 0 < n && UrlFreeFront(s, n)
    ensures UrlFreeFront(s[1..], n - 1)
  {
    var t := s[1..];
    assert forall i :: 0 <= i < |t| ==> t[i] == s[i + 1];
  }

  lemma ConsSlices(s: string, n: nat)
    requires 0 < n <= |s|
    ensures s[1..][n - 1..] == s[n..] && [s[0]] + s[1..][..n - 1] == s[..n]
  {
  }

  lemma UrlKeptOne(s: string)
    requires s != [] && !UrlAt(s)
    ensures StripUrls(s) == [s[0]] + StripUrls(s[1..])
  {
  }

  /** A `https://` URL running up to whitespace or the end is deleted. */
  lemma UrlDropped(x: string, t: string)
    requires IsToken(x)
    requires t == [] || IsSpace(t[0])
    ensures StripUrls("https://" + x + t) == StripUrls(t)
  {
    var u := "https://" + x;
    var s := u + t;
    assert s[..8] == "https://" && s[8] == x[0];
    assert IsToken(u) by {
      assert forall i :: 0 <= i < 8 ==> u[i] == "https://"[i];
      assert forall i :: 8 <= i < |u| ==> u[i] == x[i - 8];
    }
    NonSpaceRunOfToken(u, t);
    assert s[|u|..] == t;
  }

  /** Text with no URL match is left as it is by the URL step. */
  lemma {:induction false} UrlFreeUntouched(s: string)
    requires NoUrl(s)
    ensures StripUrls(s) == s
    decreases |s|
  {
    assert !UrlAt(s[0..]);
    assert s[0..] == s;
    if s != [] {
      assert NoUrl(s[1..]) by {
        forall i | 0 <= i <= |s[1..]| ensures !UrlAt(s[1..][i..]) {
          assert s[1..][i..] == s[i + 1..];
        }
      }
      UrlFreeUntouched(s[1..]);
    }
  }

  /** Text with nothing for the first two substitutions to match is left
      as it is by both. */
  lemma PlainTextUntouched(s: string)
    requires NoUrl(s)
    requires '<' !in s
    ensures StripUrls(s) == s && StripTags(s) == s
  {
    UrlFreeUntouched(s);
    TagsKeptBefore(s, []);
    assert s + [] == s;
  }

  /** Text before the first `<` passes the tag step untouched. */
  lemma {:induction false} TagsKeptBefore(w: string, t: string)
    requires '<' !in w
    ensures StripTags(w + t) == w + StripTags(t)
  {
    if w != [] {
      var s := w + t;
      assert s[0] == w[0] && s[1..] == w[1..] + t;
      assert w[0] in w;
      TagsKeptBefore(w[1..], t);
      assert [w[0]] + (w[1..] + StripTags(t)) == w + StripTags(t);
    } else {
      assert w + t == t;
    }
  }

  /** The first `>` after text with no `>` and no newline closes the tag. */
  lemma {:induction false} TagCloseAfter(x: string, t: string)
    requires '>' !in x && '\n' !in x
    ensures TagClose(x + ">" + t) == |x|
  {
    if x != [] {
      assert x[0] in x;
      assert (x + ">" + t)[1..] == x[1..] + ">" + t;
      TagCloseAfter(x[1..], t);
    }
  }

  /** A tag `<x>` without `>` or a newline inside is deleted. */
  lemma TagDropped(x: string, t: string)
    requires '>' !in x && '\n' !in x
    ensures StripTags("<" + x + ">" + t) == StripTags(t)
  {
    var s := "<" + x + ">" + t;
    assert s[1..] == x + ">" + t;
    TagCloseAfter(x, t);
    assert s[|x| + 2..] == t;
  }

  /** Words glued by single spaces, each without a non-word character,
      pass the punctuation step untouched. */
  lemma {:induction false} WordsKept(ws: seq<string>)
    requires forall k, i :: 0 <= k < |ws| && 0 <= i < |ws[k]| ==> IsWordChar(ws[k][i])
    requires forall k :: 0 <= k < |ws| ==> ws[k] != []
    ensures CollapseNonWordRuns(Join(ws)) == Join(ws)
  {
    if |ws| == 1 {
      WordCharsKept(ws[0], []);
      assert ws[0] + [] == ws[0];
    } else if |ws| > 1 {
      var rest := ws[1..];
      assert forall k :: 0 <= k < |rest| ==> rest[k] == ws[k + 1];
      WordsKept(rest);
      JoinPrefix(rest);
      assert IsWordChar(ws[1][0]);
      JoinSpaceRun(ws);
      GapToOne(ws[0], 1, Join(rest));
    }
  }

  /** A join of two or more words is the first word, a space, and the join
      of the rest. */
  lemma JoinSpaceRun(ws: seq<string>)
    requires |ws| > 1
    ensures Join(ws) == ws[0] + (Run(' ', 1) + Join(ws[1..]))
    ensures Run(' ', 1) == [' ']
  {
  }

  /** A non-empty join starts with its first word. */
  lemma {:induction false} JoinPrefix(ws: seq<string>)
    requires ws != [] && ws[0] != []
    ensures Join(ws) != [] && Join(ws)[0] == ws[0][0]
  {
  }

  /** Once the punctuation step is done, a normalized, run-free join of at
      most 400 words passes every later step untouched. */
  lemma LaterStepsKeep(ws: seq<string>, r: string)
    requires AllTokens(ws) && |ws| <= MaxWords && r == Join(ws)
    requires NoLetterTriple(r)
    ensures CollapseLetterRuns(r) == r && Join(Split(r)) == r
    ensures TruncateWords(r, MaxWords) == r && Strip(r) == r
  {
    LetterRunsIdle(r);
    SplitJoin(ws);
    JoinNormalized(ws);
    StripNormalized(r);
  }

  /** `CleanString` from the results of its steps. */
  lemma CleanOfSteps(s: string, demojize: string -> string, lowered: string, punct: string,
                     letters: string, spaced: string, limited: string)
    requires lowered == Strip(Lower(demojize(StripTags(StripUrls(s)))))
    requires punct == CollapseNonWordRuns(lowered)
    requires letters == CollapseLetterRuns(punct)
    requires spaced == Join(Split(letters))
    requires limited == TruncateWords(spaced, MaxWords)
    ensures CleanString(s, demojize) == Strip(limited)
  {
  }

  /** `TextProcessor.is_valid`: a string with at least two characters once
      stripped, which is to say a string with two non-whitespace characters. */
  function IsValid(t: Text): (ok: bool)
    ensures ok <==> t.Str? && exists i, j :: 0 <= i < j < |t.s| && !IsSpace(t.s[i]) && !IsSpace(t.s[j])
  {
    if t.NonString? || t.s == [] then false
    else
      var stripped := Strip(t.s);
      StripAtLeastTwo(t.s);
      if stripped == [] then false
      else if |stripped| < 2 then false
      else true
  }

  /** On the output of `clean`, validity is just "at least two characters". */
  lemma ValidCleaned(t: Text, demojize: string -> string)
    ensures IsValid(Str(Clean(t, demojize))) <==> |Clean(t, demojize)| >= 2
  {
    ValidNormalized(Clean(t, demojize));
  }

  lemma ValidNormalized(r: string)
    requires Normalized(r)
    ensures IsValid(Str(r)) <==> |r| >= 2
  {
    StripNormalized(r);
    if r != [] {
      StripAtLeastTwo(r);
    }
  }
}
