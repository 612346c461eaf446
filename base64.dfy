/**
 * Base64 with the alphabet of section 4 of RFC 4648: the encoder a file
 * reader uses for a `data:` URL, and `atob`, the forgiving decoder of the
 * WHATWG HTML standard, which returns a binary string (one character per
 * byte).
 */
module Base64 {
  import opened Wrappers
  import opened JsString

  newtype byte = x: int | 0 <= x < 256

  predicate IsBase64Char(c: char) {
    IsAsciiUpper(c) || IsAsciiLower(c) || IsAsciiDigit(c) || c == '+' || c == '/'
  }

  /** The value of an alphabet character. */
  function SextetOf(c: char): (v: nat)
    requires IsBase64Char(c)
    ensures v < 64
  {
    if IsAsciiUpper(c) then c as int - 'A' as int
    else if IsAsciiLower(c) then c as int - 'a' as int + 26
    else if IsAsciiDigit(c) then c as int - '0' as int + 52
    else if c == '+' then 62
    else 63
  }

  /** The alphabet character of a 6-bit value; the inverse of `SextetOf`. */
  function Base64Char(v: nat): (c: char)
    requires v < 64
    ensures IsBase64Char(c) && SextetOf(c) == v
  {
    if v < 26 then (v + 'A' as int) as char
    else if v < 52 then (v - 26 + 'a' as int) as char
    else if v < 62 then (v - 52 + '0' as int) as char
    else if v == 62 then '+'
    else '/'
  }

  // ---------------------------------------------------------------------------
  // Encoding

  /** The encoding without its `=` padding. */
  function Unpadded(b: seq<byte>): (s: string)
    ensures |s| % 4 != 1
    ensures forall k :: 0 <= k < |s| ==> IsBase64Char(s[k])
    ensures |s| == |b| / 3 * 4 + (if |b| % 3 == 0 then 0 else |b| % 3 + 1)
  {
    if |b| == 0 then []
    else if |b| == 1 then
      [Base64Char(b[0] as int / 4), Base64Char(b[0] as int % 4 * 16)]
    else if |b| == 2 then
      [Base64Char(b[0] as int / 4), Base64Char(b[0] as int % 4 * 16 + b[1] as int / 16),
       Base64Char(b[1] as int % 16 * 4)]
    else
      [Base64Char(b[0] as int / 4), Base64Char(b[0] as int % 4 * 16 + b[1] as int / 16),
       Base64Char(b[1] as int % 16 * 4 + b[2] as int / 64), Base64Char(b[2] as int % 64)]
      + Unpadded(b[3..])
  }

  function Padding(b: seq<byte>): string {
    if |b| % 3 == 1 then "==" else if |b| % 3 == 2 then "=" else ""
  }

  /** Padded base64, as a file reader writes it after `;base64,`. */
  function Btoa(b: seq<byte>): string {
    Unpadded(b) + Padding(b)
  }

  // ---------------------------------------------------------------------------
  // Decoding

  /** ASCII whitespace of the Infra standard: TAB, LF, FF, CR and SPACE. */
  predicate IsAsciiWhitespace(c: char) {
    c == '\t' || c == '\n' || c == '\U{000C}' || c == '\r' || c == ' '
  }

  function StripAsciiWhitespace(s: string): (t: string)
    ensures |t| <= |s|
    ensures forall k :: 0 <= k < |t| ==> !IsAsciiWhitespace(t[k])
  {
    if s == [] then []
    else if IsAsciiWhitespace(s[0]) then StripAsciiWhitespace(s[1..])
    else [s[0]] + StripAsciiWhitespace(s[1..])
  }

  /** When the length is a multiple of four, one or two final `=` are dropped. */
  function StripPadding(t: string): (u: string)
    ensures |u| <= |t|
  {
    if |t| % 4 == 0 && |t| >= 2 && t[|t| - 2] == '=' && t[|t| - 1] == '=' then t[..|t| - 2]
    else if |t| % 4 == 0 && |t| >= 1 && t[|t| - 1] == '=' then t[..|t| - 1]
    else t
  }

  /** The three bytes a group of four sextets carries. */
  function HighByte(a: nat, b: nat): byte
    requires a < 64 && b < 64
  {
    (a * 4 + b / 16) as byte
  }

  function MiddleByte(b: nat, c: nat): byte
    requires b < 64 && c < 64
  {
    (b % 16 * 16 + c / 4) as byte
  }

  function LowByte(c: nat, d: nat): byte
    requires c < 64 && d < 64
  {
    (c % 4 * 64 + d) as byte
  }

  /** Decodes groups of four characters; a final group of two or three keeps its whole bytes and drops the rest. */
  function DecodeGroups(s: string): (b: seq<byte>)
    requires |s| % 4 != 1
    requires forall k :: 0 <= k < |s| ==> IsBase64Char(s[k])
    ensures |b| == |s| / 4 * 3 + (if |s| % 4 == 0 then 0 else |s| % 4 - 1)
  {
    if |s| == 0 then []
    else if |s| == 2 then
      [HighByte(SextetOf(s[0]), SextetOf(s[1]))]
    else if |s| == 3 then
      [HighByte(SextetOf(s[0]), SextetOf(s[1])), MiddleByte(SextetOf(s[1]), SextetOf(s[2]))]
    else
      [HighByte(SextetOf(s[0]), SextetOf(s[1])), MiddleByte(SextetOf(s[1]), SextetOf(s[2])),
       LowByte(SextetOf(s[2]), SextetOf(s[3]))]
      + DecodeGroups(s[4..])
  }

  /** A binary string: character `i` has the code of byte `i`. */
  function BinaryString(b: seq<byte>): (s: string)
    ensures |s| == |b| && forall k :: 0 <= k < |b| ==> s[k] as int == b[k] as int
  {
    seq(|b|, k requires 0 <= k < |b| => b[k] as int as char)
  }

  /** `atob`: `None` stands for the exception it throws on malformed input. */
  function Atob(s: string): (r: Option<string>)
    ensures r.Some? ==> forall k :: 0 <= k < |r.value| ==> r.value[k] as int < 256
  {
    var u := StripPadding(StripAsciiWhitespace(s));
    if |u| % 4 == 1 then None
    else if exists k :: 0 <= k < |u| && !IsBase64Char(u[k]) then None
    else Some(BinaryString(DecodeGroups(u)))
  }

  // ---------------------------------------------------------------------------
  // Round trip

  lemma {:induction false} DecodeUnpadded(b: seq<byte>)
    ensures DecodeGroups(Unpadded(b)) == b
    decreases |b|
  {
    var s := Unpadded(b);
    if |b| == 0 {
    } else if |b| == 1 {
      assert HighByte(SextetOf(s[0]), SextetOf(s[1])) == b[0];
    } else if |b| == 2 {
      assert HighByte(SextetOf(s[0]), SextetOf(s[1])) == b[0];
      assert MiddleByte(SextetOf(s[1]), SextetOf(s[2])) == b[1];
    } else {
      assert HighByte(SextetOf(s[0]), SextetOf(s[1])) == b[0];
      assert MiddleByte(SextetOf(s[1]), SextetOf(s[2])) == b[1];
      assert LowByte(SextetOf(s[2]), SextetOf(s[3])) == b[2];
      assert s[4..] == Unpadded(b[3..]);
      DecodeUnpadded(b[3..]);
      assert b == b[..3] + b[3..];
    }
  }

  lemma {:induction false} StripNoWhitespace(s: string)
    requires forall k :: 0 <= k < |s| ==> !IsAsciiWhitespace(s[k])
    ensures StripAsciiWhitespace(s) == s
  {
    if s != [] {
      StripNoWhitespace(s[1..]);
      assert s == [s[0]] + s[1..];
    }
  }

  /** Padding that completes a group of four is dropped again, and nothing else is. */
  lemma StripAppendedPadding(u: string, pad: string)
    requires forall k :: 0 <= k < |u| ==> IsBase64Char(u[k])
    requires (pad == "==" && |u| % 4 == 2) || (pad == "=" && |u| % 4 == 3) || (pad == "" && |u| % 4 == 0)
    ensures StripPadding(u + pad) == u
  {
    var t := u + pad;
    if pad == "==" {
      assert t[|t| - 2] == '=' && t[|t| - 1] == '=';
      assert t[..|t| - 2] == u;
    } else if pad == "=" {
      assert t[|t| - 2] == u[|u| - 1] && t[|t| - 1] == '=';
      assert t[..|t| - 1] == u;
    } else {
      assert t == u;
      assert |t| == 0 || t[|t| - 1] == u[|u| - 1];
    }
  }

  lemma GroupRemainder(q: int, r: int)
    requires 0 <= r < 3
    ensures (4 * q + (if r == 0 then 0 else r + 1)) % 4 == (if r == 0 then 0 else r + 1)
  {
  }

  /** The encoder's padding is exactly what the decoder drops. */
  lemma PaddingStripped(b: seq<byte>)
    ensures StripPadding(Btoa(b)) == Unpadded(b)
  {
    var u := Unpadded(b);
    GroupRemainder(|b| / 3, |b| % 3);
    StripAppendedPadding(u, Padding(b));
  }

  /** Decoding what the encoder wrote gives back the bytes, one character per byte. */
  lemma AtobBtoa(b: seq<byte>)
    ensures Atob(Btoa(b)) == Some(BinaryString(b))
  {
    var u := Unpadded(b);
    var e := Btoa(b);
    forall k | 0 <= k < |e| ensures !IsAsciiWhitespace(e[k]) {
      assert k < |u| ==> e[k] == u[k];
    }
    StripNoWhitespace(e);
    PaddingStripped(b);
    DecodeUnpadded(b);
  }
}
