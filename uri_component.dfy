/**
 * `encodeURIComponent`: every character outside the unreserved set is
 * written as the percent-encoded UTF-8 bytes of section 2.1 of RFC 3986,
 * with upper-case hexadecimal digits.
 */
module UriComponent {
  import opened Wrappers
  import opened JsString
  import opened Base64

  /** The characters `encodeURIComponent` leaves alone. */
  predicate IsUnreserved(c: char) {
    IsAsciiAlnum(c) || c == '-' || c == '_' || c == '.' || c == '!' || c == '~'
    || c == '*' || c == '\'' || c == '(' || c == ')'
  }

  // ---------------------------------------------------------------------------
  // UTF-8

  /** The UTF-8 bytes of one Unicode scalar value. */
  function Utf8Char(c: char): (b: seq<byte>)
    ensures 1 <= |b| <= 4
    ensures |b| == 1 <==> c as int < 0x80
    ensures |b| == 1 ==> b[0] as int == c as int
  {
    var v := c as int;
    if v < 0x80 then [v as byte]
    else if v < 0x800 then [(0xC0 + v / 0x40) as byte, (0x80 + v % 0x40) as byte]
    else if v < 0x1_0000 then
      [(0xE0 + v / 0x1000) as byte, (0x80 + v / 0x40 % 0x40) as byte, (0x80 + v % 0x40) as byte]
    else
      [(0xF0 + v / 0x4_0000) as byte, (0x80 + v / 0x1000 % 0x40) as byte,
       (0x80 + v / 0x40 % 0x40) as byte, (0x80 + v % 0x40) as byte]
  }

  function Utf8(s: string): seq<byte> {
    if s == [] then [] else Utf8Char(s[0]) + Utf8(s[1..])
  }

  // ---------------------------------------------------------------------------
  // Percent-encoding

  function HexDigit(v: nat): (c: char)
    requires v < 16
    ensures IsAsciiDigit(c) || ('A' <= c <= 'F')
  {
    if v < 10 then (v + '0' as int) as char else (v - 10 + 'A' as int) as char
  }

  predicate IsHexDigit(c: char) {
    IsAsciiDigit(c) || ('A' <= c <= 'F') || ('a' <= c <= 'f')
  }

  function HexValue(c: char): (v: nat)
    requires IsHexDigit(c)
    ensures v < 16
  {
    if IsAsciiDigit(c) then c as int - '0' as int
    else if 'A' <= c <= 'F' then c as int - 'A' as int + 10
    else c as int - 'a' as int + 10
  }

  function PercentBytes(b: seq<byte>): (s: string)
    ensures |s| == 3 * |b|
  {
    if b == [] then [] else ['%', HexDigit(b[0] as int / 16), HexDigit(b[0] as int % 16)] + PercentBytes(b[1..])
  }

  function EncodeChar(c: char): string {
    if IsUnreserved(c) then [c] else PercentBytes(Utf8Char(c))
  }

  /** `encodeURIComponent` */
  function EncodeURIComponent(s: string): string {
    if s == [] then [] else EncodeChar(s[0]) + EncodeURIComponent(s[1..])
  }

  /** Reads percent-encoded text back to bytes; `None` on a broken escape or a non-ASCII character. */
  function PercentDecode(s: string): (r: Option<seq<byte>>)
    decreases |s|
  {
    if s == [] then Some([])
    else if s[0] == '%' then
      if |s| >= 3 && IsHexDigit(s[1]) && IsHexDigit(s[2]) then
        match PercentDecode(s[3..])
        case None => None
        case Some(rest) => Some([(HexValue(s[1]) * 16 + HexValue(s[2])) as byte] + rest)
      else None
    else if s[0] as int < 0x80 then
      match PercentDecode(s[1..])
      case None => None
      case Some(rest) => Some([s[0] as int as byte] + rest)
    else None
  }

  // ---------------------------------------------------------------------------
  // Round trip

  lemma HexRoundTrip(v: nat)
    requires v < 16
    ensures IsHexDigit(HexDigit(v)) && HexValue(HexDigit(v)) == v
  {
  }

  lemma {:induction false} DecodePercentBytes(b: seq<byte>)
    ensures PercentDecode(PercentBytes(b)) == Some(b)
  {
    if b != [] {
      var s := PercentBytes(b);
      HexRoundTrip(b[0] as int / 16);
      HexRoundTrip(b[0] as int % 16);
      assert s[3..] == PercentBytes(b[1..]);
      DecodePercentBytes(b[1..]);
      assert [b[0]] + b[1..] == b;
    }
  }

  /** One step of the decoder on an escape. */
  lemma DecodeEscapeStep(s: string)
    requires |s| >= 3 && s[0] == '%' && IsHexDigit(s[1]) && IsHexDigit(s[2])
    ensures PercentDecode(s) == match PercentDecode(s[3..])
                                case None => None
                                case Some(rest) => Some([(HexValue(s[1]) * 16 + HexValue(s[2])) as byte] + rest)
  {
  }

  /** One step of the decoder on a plain ASCII character. */
  lemma DecodePlainStep(s: string)
    requires |s| >= 1 && s[0] != '%' && s[0] as int < 0x80
    ensures PercentDecode(s) == match PercentDecode(s[1..])
                                case None => None
                                case Some(rest) => Some([s[0] as int as byte] + rest)
  {
  }

  lemma AppendEscapeCase(a: string, rest: string, x: seq<byte>, y: seq<byte>)
    requires |a| >= 3 && a[0] == '%' && IsHexDigit(a[1]) && IsHexDigit(a[2])
    requires PercentDecode(a[3..]) == Some(x) && PercentDecode(a[3..] + rest) == Some(x + y)
    ensures PercentDecode(a) == Some([(HexValue(a[1]) * 16 + HexValue(a[2])) as byte] + x)
    ensures PercentDecode(a + rest) == Some([(HexValue(a[1]) * 16 + HexValue(a[2])) as byte] + x + y)
  {
    var s := a + rest;
    assert s[0] == a[0] && s[1] == a[1] && s[2] == a[2];
    assert s[3..] == a[3..] + rest;
    DecodeEscapeStep(a);
    DecodeEscapeStep(s);
    var h := (HexValue(a[1]) * 16 + HexValue(a[2])) as byte;
    assert [h] + (x + y) == [h] + x + y;
  }

  lemma AppendPlainCase(a: string, rest: string, x: seq<byte>, y: seq<byte>)
    requires |a| >= 1 && a[0] != '%' && a[0] as int < 0x80
    requires PercentDecode(a[1..]) == Some(x) && PercentDecode(a[1..] + rest) == Some(x + y)
    ensures PercentDecode(a) == Some([a[0] as int as byte] + x)
    ensures PercentDecode(a + rest) == Some([a[0] as int as byte] + x + y)
  {
    var s := a + rest;
    assert s[0] == a[0];
    assert s[1..] == a[1..] + rest;
    DecodePlainStep(a);
    DecodePlainStep(s);
    assert [a[0] as int as byte] + (x + y) == [a[0] as int as byte] + x + y;
  }

  /** Decoding is compositional over a fully decodable head. */
  lemma {:induction false} DecodeAppend(a: string, rest: string)
    requires PercentDecode(a).Some? && PercentDecode(rest).Some?
    ensures PercentDecode(a + rest) == Some(PercentDecode(a).value + PercentDecode(rest).value)
    decreases |a|
  {
    var y := PercentDecode(rest).value;
    if a == [] {
      assert a + rest == rest;
      assert PercentDecode(a).value == [];
      assert [] + y == y;
    } else if a[0] == '%' {
      DecodeAppend(a[3..], rest);
      AppendEscapeCase(a, rest, PercentDecode(a[3..]).value, y);
    } else {
      DecodeAppend(a[1..], rest);
      AppendPlainCase(a, rest, PercentDecode(a[1..]).value, y);
    }
  }

  lemma DecodeEncodeChar(c: char)
    ensures PercentDecode(EncodeChar(c)) == Some(Utf8Char(c))
  {
    if IsUnreserved(c) {
      assert c as int < 0x80;
      assert [c][0] == c && [c][1..] == [];
      assert PercentDecode([c]) == Some([c as int as byte] + []);
      assert [c as int as byte] + [] == [c as int as byte] == Utf8Char(c);
    } else {
      DecodePercentBytes(Utf8Char(c));
    }
  }

  /** The escapes decode to the UTF-8 bytes of the original text. */
  lemma {:induction false} DecodeEncode(s: string)
    ensures PercentDecode(EncodeURIComponent(s)) == Some(Utf8(s))
  {
    if s != [] {
      DecodeEncodeChar(s[0]);
      DecodeEncode(s[1..]);
      DecodeAppend(EncodeChar(s[0]), EncodeURIComponent(s[1..]));
    }
  }

  // ---------------------------------------------------------------------------
  // The encoded text is safe inside a query string

  /** The characters that delimit a parameter of a query string or end it. */
  predicate IsQueryDelimiter(c: char) {
    c == '&' || c == '=' || c == '#' || c == '?'
  }

  lemma {:induction false} PercentBytesSafe(b: seq<byte>)
    ensures forall k :: 0 <= k < |PercentBytes(b)| ==> !IsQueryDelimiter(PercentBytes(b)[k])
  {
    if b != [] {
      PercentBytesSafe(b[1..]);
      var s := PercentBytes(b);
      forall k | 3 <= k < |s| ensures s[k] == PercentBytes(b[1..])[k - 3] { }
    }
  }

  /** No output character can end or split a query parameter. */
  lemma {:induction false} EncodedIsSafe(s: string)
    ensures forall k :: 0 <= k < |EncodeURIComponent(s)| ==> !IsQueryDelimiter(EncodeURIComponent(s)[k])
  {
    if s != [] {
      var h := EncodeChar(s[0]);
      var t := EncodeURIComponent(s[1..]);
      EncodedIsSafe(s[1..]);
      PercentBytesSafe(Utf8Char(s[0]));
      forall k | 0 <= k < |h + t| ensures !IsQueryDelimiter((h + t)[k]) {
        if k >= |h| {
          assert (h + t)[k] == t[k - |h|];
        } else {
          assert (h + t)[k] == h[k];
        }
      }
    }
  }

  // ---------------------------------------------------------------------------
  // The viewer address

  const ViewerBase := "https://docs.google.com/viewer?url="
  const ViewerTail := "&embedded=true"

  /** The third-party viewer address a linked document is shown through. */
  function ViewerUrl(url: string): string {
    ViewerBase + EncodeURIComponent(url) + ViewerTail
  }

  /**
   * The `url` parameter of the viewer address runs to the first `&` after
   * the base, and its value decodes to the UTF-8 bytes of the link.
   */
  lemma ViewerUrlCarriesLink(url: string)
    ensures var v := ViewerUrl(url);
            var n := |v| - |ViewerTail|;
            && v[..|ViewerBase|] == ViewerBase
            && v[n..] == ViewerTail
            && (forall k :: |ViewerBase| <= k < n ==> !IsQueryDelimiter(v[k]))
            && PercentDecode(v[|ViewerBase|..n]) == Some(Utf8(url))
  {
    var x := EncodeURIComponent(url);
    var v := ViewerUrl(url);
    var n := |v| - |ViewerTail|;
    EncodedIsSafe(url);
    DecodeEncode(url);
    assert v[|ViewerBase|..n] == x;
    forall k | |ViewerBase| <= k < n ensures !IsQueryDelimiter(v[k]) {
      assert v[k] == x[k - |ViewerBase|];
    }
    assert v[..|ViewerBase|] == ViewerBase;
    assert v[n..] == ViewerTail;
  }
}
