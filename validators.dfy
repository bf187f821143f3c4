/**
  `get_videoId` (src/utils/validators.py): the text after the last '/',
  stripped, with a leading "watch?v=" removed and cut at the first '?' and
  then at the first '&'; accepted only when exactly 11 characters remain.
  Every failure, a non-string argument included, gives `None`.
*/
module Validators {
  import opened Wrappers
  import opened PyStr

  /** The length every accepted video id has. */
  const VideoIdLength: nat := 11

  /** The candidate id cut out of a URL, before the length check. */
  function Candidate(url: string): (id: string)
    ensures '/' !in id && '?' !in id && '&' !in id
  {
    var segment := AfterLast(url, '/');
    var stripped := Strip(segment);
    var unprefixed := RemovePrefix(stripped, "watch?v=");
    var beforeQuery := BeforeFirst(unprefixed, '?');
    var id := BeforeFirst(beforeQuery, '&');
    StripKeepsOut(segment, '/');
    SuffixKeepsOut(stripped, "watch?v=", '/');
    PrefixKeepsOut(beforeQuery, unprefixed, '/');
    PrefixKeepsOut(id, beforeQuery, '/');
    PrefixKeepsOut(id, beforeQuery, '?');
    id
  }

  lemma StripKeepsOut(s: string, c: char)
    requires c !in s
    ensures c !in Strip(s)
  {
    var r := Strip(s);
    var k := |s| - |LStrip(s)|;
    forall x | 0 <= x < |r| ensures r[x] != c {
      assert r[x] == s[k + x];
    }
  }

  lemma SuffixKeepsOut(s: string, p: string, c: char)
    requires c !in s
    ensures c !in RemovePrefix(s, p)
  {
    var r := RemovePrefix(s, p);
    forall x | 0 <= x < |r| ensures r[x] != c {
      assert r[x] == s[|s| - |r| + x];
    }
  }

  lemma PrefixKeepsOut(r: string, s: string, c: char)
    requires r <= s && c !in s
    ensures c !in r
  {
    forall x | 0 <= x < |r| ensures r[x] != c {
      assert r[x] == s[x];
    }
  }

  /** `get_videoId`: an 11-character id free of '/', '?' and '&', or `None`
      for a non-string or a candidate of any other length. */
  function VideoId(url: Text): (r: Option<string>)
    ensures url.NonString? ==> r == None
    ensures url.Str? ==> (r.Some? <==> |Candidate(url.s)| == VideoIdLength)
    ensures url.Str? && r.Some? ==> r.value == Candidate(url.s)
    ensures r.Some? ==> |r.value| == VideoIdLength && '/' !in r.value && '?' !in r.value && '&' !in r.value
  {
    match url
    case NonString => None
    case Str(s) =>
      var id := Candidate(s);
      if |id| == VideoIdLength then Some(id) else None
  }

  /** A string without `c` is its own last `c`-separated segment. */
  lemma AfterLastWithout(s: string, c: char)
    requires c !in s
    ensures AfterLast(s, c) == s
  {
    assert forall x :: 0 <= x < |s| ==> s[x] != c;
  }

  /** Only the text after the last '/' matters: the scheme and host are
      never looked at. */
  lemma LastSegmentOnly(prefix: string, segment: string)
    requires '/' !in segment
    ensures VideoId(Str(prefix + "/" + segment)) == VideoId(Str(segment))
  {
    AfterLastOfSuffix(prefix, '/', segment);
    AfterLastWithout(segment, '/');
  }

  // ---------------------------------------------------------------------------
  // Worked examples

  lemma StripOfNoSpace(s: string)
    requires forall x :: 0 <= x < |s| ==> !IsSpace(s[x])
    ensures Strip(s) == s
  {
    if s != [] {
      assert !IsSpace(s[0]) && !IsSpace(s[|s| - 1]);
      assert LStrip(s) == s;
    }
  }

  /** `s.split(c)[0]` is the text before position `k` when `k` holds the
      first `c`, or is the end of `s`. */
  lemma {:induction false} BeforeFirstAt(s: string, c: char, k: nat)
    requires k <= |s| && (k < |s| ==> s[k] == c)
    requires forall x :: 0 <= x < k ==> s[x] != c
    ensures BeforeFirst(s, c) == s[..k]
  {
    if k > 0 {
      BeforeFirstAt(s[1..], c, k - 1);
      assert s[..k] == [s[0]] + s[1..][..k - 1];
    }
  }

  /** The candidate from the results of its three stages. */
  lemma CandidateOfPieces(url: string, seg: string, id: string)
    requires Strip(AfterLast(url, '/')) == seg
    requires BeforeFirst(BeforeFirst(RemovePrefix(seg, "watch?v="), '?'), '&') == id
    ensures Candidate(url) == id
  {
  }

  /** A segment without '/' or whitespace is its own stripped last segment. */
  lemma PlainSegment(seg: string)
    requires forall x :: 0 <= x < |seg| ==> seg[x] != '/' && !IsSpace(seg[x])
    ensures Strip(AfterLast(seg, '/')) == seg
  {
    AfterLastWithout(seg, '/');
    StripOfNoSpace(seg);
  }

  /** Cutting at the first '?' (at `k`) and then at the first '&' keeps the
      first `k` characters when no '&' comes earlier. */
  lemma CutAt(s: string, k: nat)
    requires k <= |s| && (k < |s| ==> s[k] == '?')
    requires forall x :: 0 <= x < k ==> s[x] != '?' && s[x] != '&'
    ensures BeforeFirst(BeforeFirst(s, '?'), '&') == s[..k]
  {
    BeforeFirstAt(s, '?', k);
    BeforeFirstAt(s[..k], '&', k);
    assert s[..k][..k] == s[..k];
  }

  lemma RemovePrefixOfConcat(p: string, rest: string)
    ensures RemovePrefix(p + rest, p) == rest
  {
    assert (p + rest)[..|p|] == p;
    assert (p + rest)[|p|..] == rest;
  }

  /** A segment without '/' or whitespace that does not start "watch?v=":
      the candidate is everything before the first '?' (at `k`), provided
      no '&' comes earlier. */
  lemma CandidateOfPlain(seg: string, k: nat)
    requires forall x :: 0 <= x < |seg| ==> seg[x] != '/' && !IsSpace(seg[x])
    requires !("watch?v=" <= seg)
    requires k <= |seg| && (k < |seg| ==> seg[k] == '?')
    requires forall x :: 0 <= x < k ==> seg[x] != '?' && seg[x] != '&'
    ensures Candidate(seg) == seg[..k]
  {
    PlainSegment(seg);
    CutAt(seg, k);
    CandidateOfPieces(seg, seg, seg[..k]);
  }

  /** A segment "watch?v=" + `rest`, `rest` free of '/', '?' and whitespace:
      the candidate is `rest` up to its first '&' (at `k`). */
  lemma CandidateOfWatch(rest: string, k: nat)
    requires forall x :: 0 <= x < |rest| ==> rest[x] != '/' && rest[x] != '?' && !IsSpace(rest[x])
    requires k <= |rest| && (k < |rest| ==> rest[k] == '&')
    requires forall x :: 0 <= x < k ==> rest[x] != '&'
    ensures Candidate("watch?v=" + rest) == rest[..k]
  {
    var seg := "watch?v=" + rest;
    assert forall x :: 0 <= x < |seg| ==> seg[x] != '/' && !IsSpace(seg[x]) by {
      forall x | 0 <= x < |seg| ensures seg[x] != '/' && !IsSpace(seg[x]) {
        if x >= 8 {
          assert seg[x] == rest[x - 8];
        }
      }
    }
    PlainSegment(seg);
    RemovePrefixOfConcat("watch?v=", rest);
    BeforeFirstAt(rest, '?', |rest|);
    assert rest[..|rest|] == rest;
    BeforeFirstAt(rest, '&', k);
    CandidateOfPieces(seg, seg, rest[..k]);
  }

  // The test URLs of tests/unit/test_validators.py. Each `...Example` is a
  // test case; its `...Facts` and `...Split` lemmas are proof-cost helpers
  // that compute one step on the literal.

  lemma ShortLinkFacts(seg: string)
    requires seg == "1yeLyV43o2o?t=2"
    ensures forall x :: 0 <= x < |seg| ==> seg[x] != '/' && !IsSpace(seg[x])
    ensures !("watch?v=" <= seg)
    ensures |seg| > 11 && seg[11] == '?'
    ensures forall x :: 0 <= x < 11 ==> seg[x] != '?' && seg[x] != '&'
    ensures seg[..11] == "1yeLyV43o2o"
  {
    assert seg[0] != "watch?v="[0];
  }

  lemma ShortLinkSplit()
    ensures "https://youtu.be/1yeLyV43o2o?t=2" == "https://youtu.be" + "/" + "1yeLyV43o2o?t=2"
  {
  }

  /** A youtu.be link with a time parameter. */
  lemma ShortLinkExample()
    ensures VideoId(Str("https://youtu.be/1yeLyV43o2o?t=2")) == Some("1yeLyV43o2o")
  {
    ShortLinkSplit();
    LastSegmentOnly("https://youtu.be", "1yeLyV43o2o?t=2");
    ShortLinkFacts("1yeLyV43o2o?t=2");
    CandidateOfPlain("1yeLyV43o2o?t=2", 11);
  }

  lemma WatchLinkFacts(rest: string)
    requires rest == "52c7Kxp_14E&t=1023s"
    ensures forall x :: 0 <= x < |rest| ==> rest[x] != '/' && rest[x] != '?' && !IsSpace(rest[x])
    ensures |rest| > 11 && rest[11] == '&'
    ensures forall x :: 0 <= x < 11 ==> rest[x] != '&'
    ensures rest[..11] == "52c7Kxp_14E"
    ensures '/' !in "watch?v=" + rest
  {
  }

  lemma WatchLinkSplit()
    ensures "https://www.youtube.com/watch?v=52c7Kxp_14E&t=1023s"
         == "https://www.youtube.com" + "/" + ("watch?v=" + "52c7Kxp_14E&t=1023s")
  {
  }

  /** A watch link with a second query parameter. */
  lemma WatchLinkExample()
    ensures VideoId(Str("https://www.youtube.com/watch?v=52c7Kxp_14E&t=1023s")) == Some("52c7Kxp_14E")
  {
    WatchLinkSplit();
    WatchLinkFacts("52c7Kxp_14E&t=1023s");
    LastSegmentOnly("https://www.youtube.com", "watch?v=" + "52c7Kxp_14E&t=1023s");
    CandidateOfWatch("52c7Kxp_14E&t=1023s", 11);
  }

  lemma WrongParameterFacts(seg: string)
    requires seg == "watch?video=dQw4w9WgXcQ"
    ensures forall x :: 0 <= x < |seg| ==> seg[x] != '/' && !IsSpace(seg[x])
    ensures !("watch?v=" <= seg)
    ensures |seg| > 5 && seg[5] == '?'
    ensures forall x :: 0 <= x < 5 ==> seg[x] != '?' && seg[x] != '&'
  {
    assert seg[7] != "watch?v="[7];
  }

  lemma WrongParameterSplit()
    ensures "youtube.com/watch?video=dQw4w9WgXcQ" == "youtube.com" + "/" + "watch?video=dQw4w9WgXcQ"
  {
  }

  /** With `video=` instead of `v=` the candidate is "watch", which has the
      wrong length. */
  lemma WrongParameterExample()
    ensures VideoId(Str("youtube.com/watch?video=dQw4w9WgXcQ")) == None
  {
    WrongParameterSplit();
    LastSegmentOnly("youtube.com", "watch?video=dQw4w9WgXcQ");
    WrongParameterFacts("watch?video=dQw4w9WgXcQ");
    CandidateOfPlain("watch?video=dQw4w9WgXcQ", 5);
  }

  lemma NoSchemeFacts(rest: string)
    requires rest == "dQw4w9WgXcQ"
    ensures forall x :: 0 <= x < |rest| ==> rest[x] != '/' && rest[x] != '?' && !IsSpace(rest[x])
    ensures forall x :: 0 <= x < |rest| ==> rest[x] != '&'
    ensures |rest| == 11 && rest[..11] == rest
    ensures '/' !in "watch?v=" + rest
  {
  }

  lemma NoSchemeSplit()
    ensures "www.youtube.com/watch?v=dQw4w9WgXcQ" == "www.youtube.com" + "/" + ("watch?v=" + "dQw4w9WgXcQ")
  {
  }

  /** A watch link without a scheme is accepted: the host is never checked. */
  lemma NoSchemeExample()
    ensures VideoId(Str("www.youtube.com/watch?v=dQw4w9WgXcQ")) == Some("dQw4w9WgXcQ")
  {
    NoSchemeSplit();
    NoSchemeFacts("dQw4w9WgXcQ");
    LastSegmentOnly("www.youtube.com", "watch?v=" + "dQw4w9WgXcQ");
    CandidateOfWatch("dQw4w9WgXcQ", 11);
  }

  lemma BareShortLinkFacts(seg: string)
    requires seg == "1yeLyV43o2o"
    ensures forall x :: 0 <= x < |seg| ==> seg[x] != '/' && !IsSpace(seg[x])
    ensures !("watch?v=" <= seg)
    ensures forall x :: 0 <= x < |seg| ==> seg[x] != '?' && seg[x] != '&'
    ensures seg[..|seg|] == seg && |seg| == 11
  {
    assert seg[0] != "watch?v="[0];
  }

  /** A youtu.be link without parameters. */
  lemma BareShortLinkExample()
    ensures VideoId(Str("https://youtu.be/1yeLyV43o2o")) == Some("1yeLyV43o2o")
  {
    assert "https://youtu.be/1yeLyV43o2o" == "https://youtu.be" + "/" + "1yeLyV43o2o";
    LastSegmentOnly("https://youtu.be", "1yeLyV43o2o");
    BareShortLinkFacts("1yeLyV43o2o");
    CandidateOfPlain("1yeLyV43o2o", 11);
  }

  lemma HandleFacts(seg: string)
    requires seg == "@analyticswithadam"
    ensures forall x :: 0 <= x < |seg| ==> seg[x] != '/' && !IsSpace(seg[x])
    ensures !("watch?v=" <= seg)
    ensures forall x :: 0 <= x < |seg| ==> seg[x] != '?' && seg[x] != '&'
    ensures seg[..|seg|] == seg && |seg| == 18
  {
    assert seg[0] != "watch?v="[0];
  }

  /** A channel handle is not a video: its 18 characters are too many. */
  lemma HandleExample()
    ensures VideoId(Str("https://www.youtube.com/@analyticswithadam")) == None
  {
    assert "https://www.youtube.com/@analyticswithadam" == "https://www.youtube.com" + "/" + "@analyticswithadam";
    LastSegmentOnly("https://www.youtube.com", "@analyticswithadam");
    HandleFacts("@analyticswithadam");
    CandidateOfPlain("@analyticswithadam", 18);
  }

  lemma ShortIdFacts(rest: string)
    requires rest == "abc123"
    ensures forall x :: 0 <= x < |rest| ==> rest[x] != '/' && rest[x] != '?' && !IsSpace(rest[x])
    ensures forall x :: 0 <= x < |rest| ==> rest[x] != '&'
    ensures |rest| == 6 && rest[..6] == rest
    ensures '/' !in "watch?v=" + rest
  {
  }

  /** Any host is accepted as long as the id has 11 characters; here it has
      6, so the URL fails. */
  lemma ShortIdExample()
    ensures VideoId(Str("https://notyoutube.com/watch?v=abc123")) == None
  {
    assert "https://notyoutube.com/watch?v=abc123" == "https://notyoutube.com" + "/" + ("watch?v=" + "abc123");
    ShortIdFacts("abc123");
    LastSegmentOnly("https://notyoutube.com", "watch?v=" + "abc123");
    CandidateOfWatch("abc123", 6);
  }

  /** The same without the `www.`. */
  lemma NoSchemeBareHostExample()
    ensures VideoId(Str("youtube.com/watch?v=dQw4w9WgXcQ")) == Some("dQw4w9WgXcQ")
  {
    assert "youtube.com/watch?v=dQw4w9WgXcQ" == "youtube.com" + "/" + ("watch?v=" + "dQw4w9WgXcQ");
    NoSchemeFacts("dQw4w9WgXcQ");
    LastSegmentOnly("youtube.com", "watch?v=" + "dQw4w9WgXcQ");
    CandidateOfWatch("dQw4w9WgXcQ", 11);
  }
}
