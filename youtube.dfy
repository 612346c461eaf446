/**
 * The YouTube resolver of the gallery: the regular expression
 * `^.*(youtu.be\/|v\/|u\/\w\/|embed\/|watch\?v=|&v=)([^#&?]*).*` rewritten
 * as an explicit scanner, followed by the 11-character check on the capture.
 */
module Youtube {
  import opened Wrappers
  import opened JsString

  const EmbedBase := "https://www.youtube.com/embed/"
  const ShortBase := "https://youtu.be/"
  /** The watch page, written in pieces short enough to reason about one by one. */
  const WatchHost := "https://www."
  const WatchSite := "youtube.com/"
  const WatchPath := "watch?v="
  const WatchBase := WatchHost + WatchSite + WatchPath

  /** `\w` */
  predicate IsWordChar(c: char) {
    IsAsciiAlnum(c) || c == '_'
  }

  /** `.` without the `s` flag: one UTF-16 code unit that is not a line terminator. */
  predicate IsRegexDot(c: char) {
    c as int < 0x1_0000 && !IsLineTerminator(c)
  }

  /** The characters the capture `[^#&?]*` stops at. */
  predicate IsIdStop(c: char) {
    c == '#' || c == '&' || c == '?'
  }

  /** The characters of a well-formed YouTube video id. */
  predicate IsVideoIdChar(c: char) {
    IsAsciiAlnum(c) || c == '_' || c == '-'
  }

  predicate IsVideoId(id: string) {
    |id| == 11 && forall k :: 0 <= k < |id| ==> IsVideoIdChar(id[k])
  }

  /**
   * Length of the alternative of group 1 that `w` starts with, trying them
   * in the order the pattern lists them, or 0 when `w` starts with none.
   */
  function MarkerIn(w: string): (n: nat)
    ensures n <= |w|
  {
    if |w| >= 9 && w[0] == 'y' && w[1] == 'o' && w[2] == 'u' && w[3] == 't' && w[4] == 'u'
         && IsRegexDot(w[5]) && w[6] == 'b' && w[7] == 'e' && w[8] == '/' then 9
    else if |w| >= 2 && w[0] == 'v' && w[1] == '/' then 2
    else if |w| >= 4 && w[0] == 'u' && w[1] == '/' && IsWordChar(w[2]) && w[3] == '/' then 4
    else if |w| >= 6 && w[0] == 'e' && w[1] == 'm' && w[2] == 'b' && w[3] == 'e' && w[4] == 'd'
         && w[5] == '/' then 6
    else if |w| >= 8 && w[0] == 'w' && w[1] == 'a' && w[2] == 't' && w[3] == 'c' && w[4] == 'h'
         && w[5] == '?' && w[6] == 'v' && w[7] == '=' then 8
    else if |w| >= 3 && w[0] == '&' && w[1] == 'v' && w[2] == '=' then 3
    else 0
  }

  /** Length of the marker that matches at index `i` of `s`, or 0. */
  function MarkerLength(s: string, i: nat): (n: nat)
    requires i <= |s|
    ensures i + n <= |s|
  {
    MarkerIn(s[i..])
  }

  /** Every alternative contains one of `/`, `?`, `&`; none can match among video id characters. */
  lemma NoMarkerAmongIdChars(w: string)
    requires forall k :: 0 <= k < |w| ==> IsVideoIdChar(w[k])
    ensures MarkerIn(w) == 0
  {
  }

  /** No alternative contains a line terminator. */
  lemma MarkerHasNoLineTerminator(w: string, k: nat)
    requires k < MarkerIn(w)
    ensures !IsLineTerminator(w[k])
  {
  }

  /**
   * Whether an alternative matches depends only on the characters it spans,
   * and the alternatives start with distinct characters.
   */
  lemma MarkerIsLocal(w: string, w': string)
    requires MarkerIn(w) <= |w'|
    requires forall k :: 0 <= k < MarkerIn(w) ==> w'[k] == w[k]
    ensures MarkerIn(w) > 0 ==> MarkerIn(w') == MarkerIn(w)
  {
  }

  // ---------------------------------------------------------------------------
  // The scanner

  /** The first line terminator at or after `i`, or the end of `s`. */
  function LineEnd(s: string, i: nat): (n: nat)
    requires i <= |s|
    ensures i <= n <= |s|
    ensures forall k :: i <= k < n ==> !IsLineTerminator(s[k])
    ensures n < |s| ==> IsLineTerminator(s[n])
    decreases |s| - i
  {
    if i == |s| || IsLineTerminator(s[i]) then i else LineEnd(s, i + 1)
  }

  /** How far the leading `.*` can reach: markers may start at any index up to this one. */
  function PrefixLimit(s: string): nat {
    LineEnd(s, 0)
  }

  lemma PrefixLimitMeans(s: string, n: nat)
    requires n <= |s|
    ensures n <= PrefixLimit(s) <==> forall k :: 0 <= k < n ==> !IsLineTerminator(s[k])
  {
  }

  /** The greatest index at or below `hi` where a marker matches. */
  function LastMarker(s: string, hi: nat): (r: Option<nat>)
    requires hi <= |s|
    ensures r.Some? ==> r.value <= hi && MarkerLength(s, r.value) > 0
    ensures r.Some? ==> forall q :: r.value < q <= hi ==> MarkerLength(s, q) == 0
    ensures r.None? ==> forall q :: 0 <= q <= hi ==> MarkerLength(s, q) == 0
    decreases hi
  {
    if MarkerLength(s, hi) > 0 then Some(hi)
    else if hi == 0 then None
    else LastMarker(s, hi - 1)
  }

  /** Where the greedy run `[^#&?]*` starting at `i` ends. */
  function CaptureEnd(s: string, i: nat): (j: nat)
    requires i <= |s|
    ensures i <= j <= |s|
    ensures forall k :: i <= k < j ==> !IsIdStop(s[k])
    ensures j == |s| || IsIdStop(s[j])
    decreases |s| - i
  {
    if i == |s| || IsIdStop(s[i]) then i else CaptureEnd(s, i + 1)
  }

  /** Group 2 of the match, when the expression matches at all. */
  function CapturedId(url: string): Option<string> {
    match LastMarker(url, PrefixLimit(url))
    case None => None
    case Some(p) =>
      var a := p + MarkerLength(url, p);
      Some(url[a..CaptureEnd(url, a)])
  }

  /** `getYoutubeEmbedUrl`: the embed address when the capture has JavaScript length 11, else `null`. */
  function YoutubeEmbedUrl(url: string): Option<string> {
    match CapturedId(url)
    case Some(id) => if JsLength(id) == 11 then Some(EmbedBase + id) else None
    case None => None
  }

  // ---------------------------------------------------------------------------
  // What the scanner accepts

  /**
   * The expression matches `url` with group 1 at `p` and group 2 ending at
   * `b`: the leading `.*` reaches `p` without a line terminator, and being
   * greedy it leaves no later marker it could have stopped at; the capture
   * takes every character up to the first `#`, `&` or `?`.
   */
  ghost predicate RegexMatch(url: string, p: nat, b: nat) {
    && p <= PrefixLimit(url)
    && MarkerLength(url, p) > 0
    && (forall q :: p < q <= PrefixLimit(url) ==> MarkerLength(url, q) == 0)
    && p + MarkerLength(url, p) <= b <= |url|
    && (forall k :: p + MarkerLength(url, p) <= k < b ==> !IsIdStop(url[k]))
    && (b == |url| || IsIdStop(url[b]))
  }

  /** A match decides the result: the embed address of the capture iff its length is 11. */
  lemma MatchDecides(url: string, p: nat, b: nat)
    requires RegexMatch(url, p, b)
    ensures var id := url[p + MarkerLength(url, p)..b];
            YoutubeEmbedUrl(url) == if JsLength(id) == 11 then Some(EmbedBase + id) else None
  {
    var lim := PrefixLimit(url);
    var r := LastMarker(url, lim);
    assert r.Some? && MarkerLength(url, r.value) > 0 && MarkerLength(url, p) > 0;
    assert r.value == p;
    var a := p + MarkerLength(url, p);
    var c := CaptureEnd(url, a);
    assert (c == |url| || IsIdStop(url[c])) && (b == |url| || IsIdStop(url[b]));
    assert c == b;
  }

  /** Only a match yields an embed address. */
  lemma ResultNeedsMatch(url: string)
    requires YoutubeEmbedUrl(url).Some?
    ensures exists p: nat, b: nat :: RegexMatch(url, p, b)
  {
    var p :| LastMarker(url, PrefixLimit(url)) == Some(p);
    var a := p + MarkerLength(url, p);
    assert RegexMatch(url, p, CaptureEnd(url, a));
  }

  /** No marker before the first line terminator: the resolver yields `null`. */
  lemma NoMarkerNoResult(url: string)
    requires forall q :: 0 <= q <= PrefixLimit(url) ==> MarkerLength(url, q) == 0
    ensures YoutubeEmbedUrl(url) == None
  {
  }

  // ---------------------------------------------------------------------------
  // Recognised shapes

  /**
   * A link made of a prefix that ends with a marker at `p`, followed by a
   * well-formed 11-character id, resolves to the embed address of that id.
   */
  /** After a line-free prefix, a video id adds no line terminator, no marker and no stop character. */
  lemma VideoIdTail(pre: string, id: string)
    requires IsVideoId(id)
    requires forall k :: 0 <= k < |pre| ==> !IsLineTerminator(pre[k])
    ensures PrefixLimit(pre + id) == |pre + id|
    ensures forall q :: |pre| <= q <= |pre + id| ==> MarkerLength(pre + id, q) == 0
    ensures forall k :: |pre| <= k < |pre + id| ==> !IsIdStop((pre + id)[k])
  {
    var u := pre + id;
    forall k | 0 <= k < |u| ensures !IsLineTerminator(u[k]) {
      if k >= |pre| { assert u[k] == id[k - |pre|]; }
    }
    PrefixLimitMeans(u, |u|);
    forall q | |pre| <= q <= |u| ensures MarkerLength(u, q) == 0 {
      forall k | 0 <= k < |u[q..]| ensures IsVideoIdChar(u[q..][k]) {
        assert u[q..][k] == id[q + k - |pre|];
      }
      NoMarkerAmongIdChars(u[q..]);
    }
    forall k | |pre| <= k < |u| ensures !IsIdStop(u[k]) {
      assert u[k] == id[k - |pre|];
    }
  }

  lemma IdAfterLastMarker(pre: string, p: nat, id: string)
    requires IsVideoId(id)
    requires forall k :: 0 <= k < |pre| ==> !IsLineTerminator(pre[k])
    requires p <= |pre|
    requires MarkerLength(pre + id, p) > 0 && p + MarkerLength(pre + id, p) == |pre|
    requires forall q :: p < q < |pre| ==> MarkerLength(pre + id, q) == 0
    ensures YoutubeEmbedUrl(pre + id) == Some(EmbedBase + id)
  {
    var u := pre + id;
    VideoIdTail(pre, id);
    assert RegexMatch(u, p, |u|);
    MatchDecides(u, p, |u|);
    assert u[|pre|..|u|] == id;
    JsLengthOfBmp(id);
  }

  /** `https://youtu.be/<id>` */
  lemma ShortLinkResolves(id: string)
    requires IsVideoId(id)
    ensures YoutubeEmbedUrl(ShortBase + id) == Some(EmbedBase + id)
  {
    var pre := ShortBase;
    var u := pre + id;
    forall k | 0 <= k < |pre| ensures !IsLineTerminator(pre[k]) { }
    assert u[8..][0] == 'y' && u[8..][5] == '.' && u[8..][8] == '/';
    assert MarkerLength(u, 8) == 9;
    forall q | 8 < q < |pre| ensures MarkerLength(u, q) == 0 {
      assert u[q..][0] == pre[q] && u[q..][1] == u[q + 1];
    }
    IdAfterLastMarker(pre, 8, id);
  }

  /** `https://www.youtube.com/watch?v=<id>` */
  lemma WatchLinkResolves(id: string)
    requires IsVideoId(id)
    ensures YoutubeEmbedUrl(WatchBase + id) == Some(EmbedBase + id)
  {
    var pre := WatchBase;
    var u := pre + id;
    forall k | 0 <= k < |pre| ensures !IsLineTerminator(pre[k]) {
      if k < 12 {
        assert pre[k] == WatchHost[k];
      } else if k < 24 {
        assert pre[k] == WatchSite[k - 12];
      } else {
        assert pre[k] == WatchPath[k - 24];
      }
    }
    assert u[24..][0] == 'w' && u[24..][5] == '?' && u[24..][7] == '=';
    assert MarkerLength(u, 24) == 8;
    forall q | 24 < q < |pre| ensures MarkerLength(u, q) == 0 {
      assert u[q..][0] == pre[q] && u[q..][1] == u[q + 1];
    }
    IdAfterLastMarker(pre, 24, id);
  }

  // ---------------------------------------------------------------------------
  // The embed address resolves to itself

  /** What the scanner sees in the fixed prefix `https://www.youtube.com/embed/`. */
  lemma EmbedBaseFacts(e: string)
    requires |e| >= |EmbedBase| && e[..|EmbedBase|] == EmbedBase
    ensures forall k :: 0 <= k < |EmbedBase| ==> !IsLineTerminator(e[k])
    ensures MarkerLength(e, 24) == 6
    ensures forall q :: 24 < q < |EmbedBase| ==> MarkerLength(e, q) == 0
  {
    forall k | 0 <= k < |EmbedBase| ensures !IsLineTerminator(e[k]) {
      assert e[k] == EmbedBase[k];
    }
    assert e[24..][0] == 'e' && e[24..][5] == '/';
    forall q | 24 < q < |EmbedBase| ensures MarkerLength(e, q) == 0 {
      assert e[q..][0] == EmbedBase[q];
    }
  }

  /**
   * A marker found inside the copied id of an embed address was already a
   * marker of the original link, at the corresponding index.
   */
  lemma CopiedMarker(url: string, a: nat, b: nat, q: nat)
    requires a <= b <= |url|
    requires |EmbedBase| <= q <= |EmbedBase| + (b - a)
    ensures var e := EmbedBase + url[a..b];
            MarkerLength(e, q) > 0 ==> MarkerLength(url, a + (q - |EmbedBase|)) == MarkerLength(e, q)
  {
    var e := EmbedBase + url[a..b];
    var q' := a + (q - |EmbedBase|);
    forall k | 0 <= k < |e[q..]| ensures url[q'..][k] == e[q..][k] {
      assert e[q..][k] == url[a..b][q - |EmbedBase| + k];
    }
    MarkerIsLocal(e[q..], url[q'..]);
  }

  /** Everything up to the end of a matched marker lies before the first line terminator. */
  lemma MatchPrefixClear(url: string, p: nat, b: nat)
    requires RegexMatch(url, p, b)
    ensures forall k :: 0 <= k < p + MarkerLength(url, p) ==> !IsLineTerminator(url[k])
  {
    PrefixLimitMeans(url, p);
    forall k | p <= k < p + MarkerLength(url, p) ensures !IsLineTerminator(url[k]) {
      MarkerHasNoLineTerminator(url[p..], k - p);
      assert url[p..][k - p] == url[k];
    }
  }

  /** Line terminators of the embed address come from the copied id. */
  lemma CopiedPrefixLimit(url: string, p: nat, b: nat, q: nat)
    requires RegexMatch(url, p, b)
    requires var e := EmbedBase + url[p + MarkerLength(url, p)..b];
             |EmbedBase| <= q <= PrefixLimit(e)
    ensures p + MarkerLength(url, p) + (q - |EmbedBase|) <= PrefixLimit(url)
  {
    var a := p + MarkerLength(url, p);
    var id := url[a..b];
    var e := EmbedBase + id;
    var q' := a + (q - |EmbedBase|);
    MatchPrefixClear(url, p, b);
    PrefixLimitMeans(e, q);
    forall k | a <= k < q' ensures !IsLineTerminator(url[k]) {
      assert url[k] == id[k - a] == e[|EmbedBase| + (k - a)];
    }
    PrefixLimitMeans(url, q');
  }

  /** The copied id of an embed address holds no marker the scanner could reach. */
  lemma NoMarkerInCopiedId(url: string, p: nat, b: nat)
    requires RegexMatch(url, p, b)
    ensures var e := EmbedBase + url[p + MarkerLength(url, p)..b];
            forall q :: |EmbedBase| <= q <= PrefixLimit(e) ==> MarkerLength(e, q) == 0
  {
    var a := p + MarkerLength(url, p);
    var e := EmbedBase + url[a..b];
    forall q | |EmbedBase| <= q <= PrefixLimit(e) ensures MarkerLength(e, q) == 0 {
      CopiedMarker(url, a, b, q);
      CopiedPrefixLimit(url, p, b, q);
    }
  }

  /** The embed address of an id matches with the `embed/` marker and the whole id as capture. */
  lemma EmbedAddressMatches(id: string)
    requires forall k :: 0 <= k < |id| ==> !IsIdStop(id[k])
    requires var e := EmbedBase + id;
             forall q :: |EmbedBase| <= q <= PrefixLimit(e) ==> MarkerLength(e, q) == 0
    ensures RegexMatch(EmbedBase + id, 24, |EmbedBase + id|)
    ensures (EmbedBase + id)[24 + MarkerLength(EmbedBase + id, 24)..] == id
  {
    var e := EmbedBase + id;
    var n0 := |EmbedBase|;
    assert e[..n0] == EmbedBase;
    EmbedBaseFacts(e);
    PrefixLimitMeans(e, 25);
    forall k | n0 <= k < |e| ensures !IsIdStop(e[k]) {
      assert e[k] == id[k - n0];
    }
    assert e[n0..] == id;
  }

  /** The embed address of an id of JavaScript length 11 that holds no reachable marker resolves to itself. */
  lemma EmbedOfIdResolves(id: string)
    requires forall k :: 0 <= k < |id| ==> !IsIdStop(id[k])
    requires var e := EmbedBase + id;
             forall q :: |EmbedBase| <= q <= PrefixLimit(e) ==> MarkerLength(e, q) == 0
    requires JsLength(id) == 11
    ensures YoutubeEmbedUrl(EmbedBase + id) == Some(EmbedBase + id)
  {
    var e := EmbedBase + id;
    EmbedAddressMatches(id);
    MatchDecides(e, 24, |e|);
    assert e[24 + MarkerLength(e, 24)..|e|] == id;
  }

  /** The embed address built from a matched id of JavaScript length 11 resolves to itself. */
  lemma EmbedOfMatchResolves(url: string, p: nat, b: nat)
    requires RegexMatch(url, p, b)
    requires JsLength(url[p + MarkerLength(url, p)..b]) == 11
    ensures var e := EmbedBase + url[p + MarkerLength(url, p)..b];
            YoutubeEmbedUrl(e) == Some(e)
  {
    NoMarkerInCopiedId(url, p, b);
    CaptureHasNoStop(url, p, b);
    EmbedOfIdResolves(url[p + MarkerLength(url, p)..b]);
  }

  lemma CaptureHasNoStop(url: string, p: nat, b: nat)
    requires RegexMatch(url, p, b)
    ensures var id := url[p + MarkerLength(url, p)..b];
            forall k :: 0 <= k < |id| ==> !IsIdStop(id[k])
  {
    var a := p + MarkerLength(url, p);
    var id := url[a..b];
    forall k | 0 <= k < |id| ensures !IsIdStop(id[k]) {
      assert id[k] == url[a + k];
    }
  }

  /** Feeding the produced embed address back to the resolver yields the same address. */
  lemma EmbedUrlIsFixedPoint(url: string)
    requires YoutubeEmbedUrl(url).Some?
    ensures YoutubeEmbedUrl(YoutubeEmbedUrl(url).value) == YoutubeEmbedUrl(url)
  {
    ResultNeedsMatch(url);
    var p: nat, b: nat :| RegexMatch(url, p, b);
    MatchDecides(url, p, b);
    EmbedOfMatchResolves(url, p, b);
  }
}
