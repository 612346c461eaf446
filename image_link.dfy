/**
 * `isImageLink`: the expression `\.(jpeg|jpg|gif|png|webp|svg|bmp)$` with
 * the `i` flag, matched against the part of the link before the first `?`.
 */
module ImageLink {
  import opened Wrappers
  import opened JsString

  /** The alternatives of the pattern, in lower case. */
  const ImageExtensions: seq<string> := ["jpeg", "jpg", "gif", "png", "webp", "svg", "bmp"]

  /** `s.split('?')[0]`: everything before the first `?`. */
  function BeforeQuery(s: string): (r: string)
    ensures |r| <= |s| && r == s[..|r|]
    ensures forall k :: 0 <= k < |r| ==> s[k] != '?'
    ensures |r| < |s| ==> s[|r|] == '?'
  {
    if s == [] || s[0] == '?' then [] else [s[0]] + BeforeQuery(s[1..])
  }

  /** `s` ends with `suffix` (given in lower case) when ASCII letters are compared without case. */
  predicate EndsWithIgnoreCase(s: string, suffix: string) {
    |suffix| <= |s| && forall k :: 0 <= k < |suffix| ==> AsciiLower(s[|s| - |suffix| + k]) == suffix[k]
  }

  /** `isImageLink` */
  predicate IsImageLink(url: string) {
    exists i :: 0 <= i < |ImageExtensions| && EndsWithIgnoreCase(BeforeQuery(url), "." + ImageExtensions[i])
  }

  // ---------------------------------------------------------------------------
  // The part before the first `?`

  /** The cut is the first `?`, and nothing else. */
  lemma BeforeQueryUnique(s: string, n: nat)
    requires n <= |s|
    requires forall k :: 0 <= k < n ==> s[k] != '?'
    requires n == |s| || s[n] == '?'
    ensures BeforeQuery(s) == s[..n]
  {
  }

  /** Appending a query string never changes the answer. */
  lemma QueryStringIgnored(s: string, q: string)
    ensures IsImageLink(s + "?" + q) <==> IsImageLink(s)
  {
    var u := s + "?" + q;
    var r := BeforeQuery(s);
    forall k | 0 <= k < |r| ensures u[k] != '?' {
      assert u[k] == s[k];
    }
    if |r| < |s| {
      assert u[|r|] == s[|r|];
    } else {
      assert u[|s|] == '?';
    }
    BeforeQueryUnique(u, |r|);
    assert u[..|r|] == r;
  }

  // ---------------------------------------------------------------------------
  // Case

  /** Changing the case of ASCII letters never changes the answer. */
  lemma CaseIgnored(a: string, b: string)
    requires |a| == |b|
    requires forall k :: 0 <= k < |a| ==> AsciiLower(a[k]) == AsciiLower(b[k])
    ensures IsImageLink(a) <==> IsImageLink(b)
  {
    var ra := BeforeQuery(a);
    forall k | 0 <= k < |ra| ensures b[k] != '?' {
      assert AsciiLower(a[k]) != '?';
    }
    if |ra| < |a| {
      assert AsciiLower(a[|ra|]) == '?';
    }
    BeforeQueryUnique(b, |ra|);
    var rb := BeforeQuery(b);
    assert |rb| == |ra|;
    forall k | 0 <= k < |ra| ensures AsciiLower(ra[k]) == AsciiLower(rb[k]) {
      assert ra[k] == a[k] && rb[k] == b[k];
    }
  }

  // ---------------------------------------------------------------------------
  // The same test read as "the file extension"

  /** Index of the last `.` of `s`. */
  function LastDot(s: string): (r: Option<nat>)
    ensures r.Some? ==> r.value < |s| && s[r.value] == '.'
    ensures r.Some? ==> forall k :: r.value < k < |s| ==> s[k] != '.'
    ensures r.None? ==> forall k :: 0 <= k < |s| ==> s[k] != '.'
  {
    if s == [] then None
    else if s[|s| - 1] == '.' then Some(|s| - 1)
    else LastDot(s[..|s| - 1])
  }

  function LowerAscii(s: string): (t: string)
    ensures |t| == |s| && forall k :: 0 <= k < |s| ==> t[k] == AsciiLower(s[k])
  {
    seq(|s|, k requires 0 <= k < |s| => AsciiLower(s[k]))
  }

  /** The text after the last dot of the path part, read in lower case, is one of the listed extensions. */
  predicate HasImageExtension(url: string) {
    var p := BeforeQuery(url);
    match LastDot(p)
    case None => false
    case Some(d) => LowerAscii(p[d + 1..]) in ImageExtensions
  }

  lemma ExtensionsAreLowerLetters(i: nat, k: nat)
    requires i < |ImageExtensions| && k < |ImageExtensions[i]|
    ensures IsAsciiLower(ImageExtensions[i][k])
  {
  }

  /** Only the dot folds to a dot. */
  lemma FoldedDot(c: char)
    ensures AsciiLower(c) == '.' <==> c == '.'
  {
  }

  lemma FoldedLetterIsNoDot(c: char)
    requires IsAsciiLower(AsciiLower(c))
    ensures c != '.'
  {
  }

  lemma SuffixGivesExtension(p: string, i: nat)
    requires i < |ImageExtensions| && EndsWithIgnoreCase(p, "." + ImageExtensions[i])
    ensures LastDot(p).Some? && LowerAscii(p[LastDot(p).value + 1..]) == ImageExtensions[i]
  {
    var e := ImageExtensions[i];
    var d := |p| - |e| - 1;
    assert AsciiLower(p[d]) == ("." + e)[0];
    FoldedDot(p[d]);
    forall k | d < k < |p| ensures p[k] != '.' {
      assert AsciiLower(p[k]) == ("." + e)[k - d];
      ExtensionsAreLowerLetters(i, k - d - 1);
      FoldedLetterIsNoDot(p[k]);
    }
    var r := LastDot(p);
    assert r == Some(d);
    var x := LowerAscii(p[d + 1..]);
    forall k | 0 <= k < |e| ensures x[k] == e[k] {
      assert AsciiLower(p[d + 1 + k]) == ("." + e)[k + 1];
    }
  }

  lemma ExtensionGivesSuffix(p: string, i: nat)
    requires i < |ImageExtensions| && LastDot(p).Some?
    requires LowerAscii(p[LastDot(p).value + 1..]) == ImageExtensions[i]
    ensures EndsWithIgnoreCase(p, "." + ImageExtensions[i])
  {
    var d := LastDot(p).value;
    var e := ImageExtensions[i];
    var s := "." + e;
    forall k | 0 <= k < |s| ensures AsciiLower(p[|p| - |s| + k]) == s[k] {
      if k > 0 {
        assert e[k - 1] == AsciiLower(p[d + 1..][k - 1]);
      }
    }
  }

  lemma ImageLinkHasExtension(url: string)
    requires IsImageLink(url)
    ensures HasImageExtension(url)
  {
    var p := BeforeQuery(url);
    var i :| 0 <= i < |ImageExtensions| && EndsWithIgnoreCase(p, "." + ImageExtensions[i]);
    SuffixGivesExtension(p, i);
  }

  lemma ExtensionMakesImageLink(url: string)
    requires HasImageExtension(url)
    ensures IsImageLink(url)
  {
    var p := BeforeQuery(url);
    var e := LowerAscii(p[LastDot(p).value + 1..]);
    var i :| 0 <= i < |ImageExtensions| && ImageExtensions[i] == e;
    ExtensionGivesSuffix(p, i);
  }

  /** The suffix test and the extension test agree on every link. */
  lemma ImageLinkIffExtension(url: string)
    ensures IsImageLink(url) <==> HasImageExtension(url)
  {
    if IsImageLink(url) {
      ImageLinkHasExtension(url);
    }
    if HasImageExtension(url) {
      ExtensionMakesImageLink(url);
    }
  }
}
