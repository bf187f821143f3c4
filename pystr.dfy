/**
  The Python `str` built-ins the pipeline relies on (`isspace`, `lower`,
  `strip`, `split`, `' '.join`, `removeprefix`, `split(c)[0]`, `split(c)[-1]`),
  restricted to ASCII: characters outside ASCII are neither whitespace nor word
  characters and have no case.
*/
module PyStr {

  /** A Python value where a `str` is expected: a string, or anything else
      (None, a number, a boolean, ...). */
  datatype Text = Str(s: string) | NonString

  /** `str.isspace()` on ASCII: tab, line feed, vertical tab, form feed,
      carriage return, the separators 0x1c-0x1f, and space. */
  predicate IsSpace(c: char) {
    9 <= c as int <= 13 || 28 <= c as int <= 32
  }

  predicate IsUpper(c: char) { 'A' <= c <= 'Z' }

  /** The class `[a-zA-Z]` */
  predicate IsLetter(c: char) { IsUpper(c) || 'a' <= c <= 'z' }

  /** The regular-expression class `\w`: letters, digits and underscore */
  predicate IsWordChar(c: char) { IsLetter(c) || '0' <= c <= '9' || c == '_' }

  function LowerChar(c: char): char {
    if IsUpper(c) then (c as int + 32) as char else c
  }

  /** `str.lower()`: every upper-case letter becomes its lower-case letter,
      everything else is kept. */
  function Lower(s: string): (r: string)
    ensures |r| == |s|
    ensures forall i :: 0 <= i < |s| ==> !IsUpper(r[i])
    ensures forall i :: 0 <= i < |s| ==>
      if IsUpper(s[i]) then r[i] as int == s[i] as int + 32 else r[i] == s[i]
  {
    seq(|s|, i requires 0 <= i < |s| => LowerChar(s[i]))
  }

  /** Text without upper-case letters is its own lower case. */
  lemma LowerOfLower(s: string)
    requires forall i :: 0 <= i < |s| ==> !IsUpper(s[i])
    ensures Lower(s) == s
  {
  }

  /** `str.lstrip()`: drops the leading whitespace. */
  function LStrip(s: string): (r: string)
    ensures |r| <= |s| && r == s[|s| - |r|..]
    ensures r == [] || !IsSpace(r[0])
    ensures forall i :: 0 <= i < |s| - |r| ==> IsSpace(s[i])
  {
    if s != [] && IsSpace(s[0]) then LStrip(s[1..]) else s
  }

  /** `str.rstrip()`: drops the trailing whitespace. */
  function RStrip(s: string): (r: string)
    ensures |r| <= |s| && r == s[..|r|]
    ensures r == [] || !IsSpace(r[|r| - 1])
    ensures forall i :: |r| <= i < |s| ==> IsSpace(s[i])
  {
    if s != [] && IsSpace(s[|s| - 1]) then RStrip(s[..|s| - 1]) else s
  }

  /** `str.strip()`: the result is the slice of `s` starting at offset `k`,
      its ends are not whitespace, and everything cut away is whitespace. */
  function Strip(s: string): (r: string)
    ensures r == [] || (!IsSpace(r[0]) && !IsSpace(r[|r| - 1]))
    ensures var k := |s| - |LStrip(s)|;
      && k + |r| <= |s|
      && r == s[k..k + |r|]
      && (forall i :: 0 <= i < k ==> IsSpace(s[i]))
      && (forall i :: k + |r| <= i < |s| ==> IsSpace(s[i]))
  {
    RStrip(LStrip(s))
  }

  /** A stripped string keeps two characters exactly when the original has two
      non-whitespace characters at different positions. */
  lemma StripAtLeastTwo(s: string)
    ensures |Strip(s)| >= 2 <==>
      exists i, j :: 0 <= i < j < |s| && !IsSpace(s[i]) && !IsSpace(s[j])
  {
    var r := Strip(s);
    var k := |s| - |LStrip(s)|;
    if |r| >= 2 {
      assert s[k] == r[0] && s[k + |r| - 1] == r[|r| - 1];
    }
    if exists i, j :: 0 <= i < j < |s| && !IsSpace(s[i]) && !IsSpace(s[j]) {
      var i, j :| 0 <= i < j < |s| && !IsSpace(s[i]) && !IsSpace(s[j]);
      assert k <= i && j < k + |r|;
    }
  }

  /** A stripped string is empty exactly when the original is all whitespace. */
  lemma StripEmpty(s: string)
    ensures Strip(s) == [] <==> forall i :: 0 <= i < |s| ==> IsSpace(s[i])
  {
    var r := Strip(s);
    var k := |s| - |LStrip(s)|;
    if r != [] {
      assert s[k] == r[0];
    }
  }

  /** A string whose ends are not whitespace is its own `strip`. */
  lemma StripTrimmed(t: string)
    requires t == [] || (!IsSpace(t[0]) && !IsSpace(t[|t| - 1]))
    ensures Strip(t) == t
  {
    assert LStrip(t) == t;
  }

  /** `strip` removes exactly the whitespace padding around a text whose
      ends are not whitespace. */
  lemma StripPadded(a: string, t: string, b: string)
    requires forall i :: 0 <= i < |a| ==> IsSpace(a[i])
    requires forall i :: 0 <= i < |b| ==> IsSpace(b[i])
    requires t != [] && !IsSpace(t[0]) && !IsSpace(t[|t| - 1])
    ensures Strip(a + t + b) == t
  {
    var s := a + t + b;
    var r := Strip(s);
    var k := |s| - |LStrip(s)|;
    assert s[|a|] == t[0];
    assert s[|a| + |t| - 1] == t[|t| - 1];
    assert forall i :: 0 <= i < |a| ==> s[i] == a[i];
    assert forall i :: |a| + |t| <= i < |s| ==> s[i] == b[i - |a| - |t|];
    assert k == |a|;
    assert k + |r| == |a| + |t|;
    assert r == s[|a|..|a| + |t|];
  }

  /** A token is what `str.split()` yields: non-empty, without whitespace. */
  predicate IsToken(w: string) {
    w != [] && forall i :: 0 <= i < |w| ==> !IsSpace(w[i])
  }

  predicate AllTokens(ws: seq<string>) {
    forall i :: 0 <= i < |ws| ==> IsToken(ws[i])
  }

  /** Length of the run of non-whitespace characters that starts `s`
      (what the regular expression `\S*` matches at its start). */
  function NonSpaceRun(s: string): (n: nat)
    ensures n <= |s|
    ensures forall i :: 0 <= i < n ==> !IsSpace(s[i])
    ensures n == |s| || IsSpace(s[n])
  {
    if s == [] || IsSpace(s[0]) then 0 else 1 + NonSpaceRun(s[1..])
  }

  /** `str.split()` with no separator: the maximal runs of non-whitespace, in
      order; leading, trailing and repeated whitespace yield no empty words. */
  function Split(s: string): (ws: seq<string>)
    ensures AllTokens(ws)
    ensures ws == [] <==> forall i :: 0 <= i < |s| ==> IsSpace(s[i])
    decreases |s|
  {
    if s == [] then []
    else if IsSpace(s[0]) then Split(s[1..])
    else
      var n := NonSpaceRun(s);
      [s[..n]] + Split(s[n..])
  }

  /** `' '.join(ws)` */
  function Join(ws: seq<string>): string {
    if ws == [] then []
    else if |ws| == 1 then ws[0]
    else ws[0] + " " + Join(ws[1..])
  }

  /** The form `' '.join(s.split())` produces: no whitespace but single spaces,
      none at either end, never two in a row. */
  predicate Normalized(s: string) {
    && (s == [] || (s[0] != ' ' && s[|s| - 1] != ' '))
    && (forall i :: 0 <= i < |s| && IsSpace(s[i]) ==> s[i] == ' ')
    && (forall i :: 0 <= i < |s| - 1 && s[i] == ' ' ==> s[i + 1] != ' ')
  }

  lemma {:induction false} NonSpaceRunOfToken(w: string, t: string)
    requires IsToken(w)
    requires t == [] || IsSpace(t[0])
    ensures NonSpaceRun(w + t) == |w|
    decreases |w|
  {
    if |w| > 1 {
      assert (w + t)[1..] == w[1..] + t;
      NonSpaceRunOfToken(w[1..], t);
    } else {
      assert (w + t)[1..] == t;
    }
  }

  /** Joining tokens with single spaces gives a normalized string that starts
      with the first token and ends with the last. */
  lemma {:induction false} JoinNormalized(ws: seq<string>)
    requires AllTokens(ws)
    ensures Normalized(Join(ws))
    ensures ws != [] ==> |Join(ws)| >= |ws[0]| && Join(ws)[..|ws[0]|] == ws[0]
    ensures ws != [] ==> Join(ws) != [] && Join(ws)[|Join(ws)| - 1] == ws[|ws| - 1][|ws[|ws| - 1]| - 1]
    ensures Join(ws) == [] <==> ws == []
  {
    if |ws| > 1 {
      var w, j := ws[0], Join(ws[1..]);
      JoinNormalized(ws[1..]);
      assert Join(ws) == w + " " + j;
      assert j[0] == ws[1][0];
      assert (w + " " + j)[..|w|] == w;
    }
  }

  /** Splitting a space-joined list of tokens gives the tokens back. */
  lemma {:induction false} SplitJoin(ws: seq<string>)
    requires AllTokens(ws)
    ensures Split(Join(ws)) == ws
  {
    if |ws| == 1 {
      NonSpaceRunOfToken(ws[0], []);
      assert ws[0] + [] == ws[0];
      assert ws[0][|ws[0]|..] == [];
    } else if |ws| > 1 {
      var w, j := ws[0], Join(ws[1..]);
      var s := w + " " + j;
      assert Join(ws) == s;
      NonSpaceRunOfToken(w, " " + j);
      assert s == w + (" " + j);
      assert s[..|w|] == w;
      assert s[|w|..] == " " + j;
      assert (" " + j)[1..] == j;
      SplitJoin(ws[1..]);
    }
  }

  /** Joining the words of a normalized string gives the string back. */
  lemma {:induction false} JoinSplit(s: string)
    requires Normalized(s)
    ensures Join(Split(s)) == s
    decreases |s|
  {
    if s != [] {
      var n := NonSpaceRun(s);
      assert n > 0;
      if n == |s| {
        assert s[n..] == [];
        assert s[..n] == s;
      } else {
        var rest := s[n + 1..];
        NormalizedAfterSpace(s, n);
        JoinSplit(rest);
        SplitAfterWord(s);
        JoinCons(s[..n], Split(rest));
        SpaceSlices(s, n);
      }
    }
  }

  /** After a space inside a normalized string comes a normalized,
      non-empty string that does not start with whitespace. */
  lemma NormalizedAfterSpace(s: string, n: nat)
    requires Normalized(s) && n < |s| && IsSpace(s[n])
    ensures s[n] == ' ' && n + 1 < |s|
    ensures var rest := s[n + 1..]; Normalized(rest) && !IsSpace(rest[0]) && Split(rest) != []
  {
    var rest := s[n + 1..];
    assert forall i :: 0 <= i < |rest| ==> rest[i] == s[n + 1 + i];
  }

  /** `split` of a string that starts with a word followed by whitespace. */
  lemma SplitAfterWord(s: string)
    requires s != [] && !IsSpace(s[0]) && NonSpaceRun(s) < |s|
    ensures var n := NonSpaceRun(s); Split(s) == [s[..n]] + Split(s[n + 1..])
  {
    var n := NonSpaceRun(s);
    SplitAtWord(s);
    SplitAtSpace(s[n..]);
    assert s[n..][1..] == s[n + 1..];
  }

  lemma SplitAtWord(s: string)
    requires s != [] && !IsSpace(s[0])
    ensures Split(s) == [s[..NonSpaceRun(s)]] + Split(s[NonSpaceRun(s)..])
  {
  }

  lemma SplitAtSpace(s: string)
    requires s != [] && IsSpace(s[0])
    ensures Split(s) == Split(s[1..])
  {
  }

  lemma SpaceSlices(s: string, n: nat)
    requires n < |s| && s[n] == ' '
    ensures s == s[..n] + " " + s[n + 1..]
  {
  }

  lemma JoinCons(w: string, ws: seq<string>)
    requires ws != []
    ensures Join([w] + ws) == w + " " + Join(ws)
  {
    assert ([w] + ws)[1..] == ws;
  }

  /** The first `n` words rejoined with single spaces. */
  function TruncateWords(s: string, limit: nat): (r: string)
    ensures |Split(s)| <= limit ==> r == s
    ensures |Split(s)| > limit ==> Split(r) == Split(s)[..limit] && Normalized(r)
    ensures |Split(r)| <= limit
  {
    var words := Split(s);
    if |words| > limit then
      SplitJoin(words[..limit]);
      JoinNormalized(words[..limit]);
      Join(words[..limit])
    else s
  }

  /** `s.removeprefix(p)` */
  function RemovePrefix(s: string, p: string): (r: string)
    ensures p <= s ==> r == s[|p|..]
    ensures !(p <= s) ==> r == s
  {
    if p <= s then s[|p|..] else s
  }

  /** `s.split(c)[0]`: everything before the first `c`, or all of `s`. */
  function BeforeFirst(s: string, c: char): (r: string)
    ensures r <= s
    ensures c !in r
    ensures |r| < |s| ==> s[|r|] == c
  {
    if s == [] || s[0] == c then [] else [s[0]] + BeforeFirst(s[1..], c)
  }

  /** `s.split(c)[-1]`: everything after the last `c`, or all of `s`. */
  function AfterLast(s: string, c: char): (r: string)
    ensures |r| <= |s| && r == s[|s| - |r|..]
    ensures c !in r
    ensures |r| < |s| ==> s[|s| - |r| - 1] == c
  {
    if s == [] || s[|s| - 1] == c then [] else AfterLast(s[..|s| - 1], c) + [s[|s| - 1]]
  }

  /** Only the text after the last separator matters. */
  lemma {:induction false} AfterLastOfSuffix(p: string, c: char, t: string)
    requires c !in t
    ensures AfterLast(p + [c] + t, c) == t
    decreases |t|
  {
    var s := p + [c] + t;
    if t == [] {
      assert s[|s| - 1] == c;
    } else {
      assert s[..|s| - 1] == p + [c] + t[..|t| - 1];
      AfterLastOfSuffix(p, c, t[..|t| - 1]);
      assert t == t[..|t| - 1] + [t[|t| - 1]];
    }
  }
}
