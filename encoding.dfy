/** The byte/text conversions the token service relies on:
    `Convert.ToBase64String` (the standard alphabet and padding of section 4
    of RFC 4648), `Convert.FromBase64String` (which also skips space, tab,
    CR and LF and does not inspect the unused low bits of the last group),
    and `Encoding.UTF8.GetBytes` (RFC 3629). */
module Encoding {
  import opened Common

  // ---------------------------------------------------------------------
  // The base64 alphabet
  // ---------------------------------------------------------------------

  predicate IsAlphabetChar(c: char) {
    ('A' <= c <= 'Z') || ('a' <= c <= 'z') || ('0' <= c <= '9') || c == '+' || c == '/'
  }

  /** The character that stands for a 6-bit group. */
  function SextetChar(v: int): (c: char)
    requires 0 <= v < 64
    ensures IsAlphabetChar(c)
  {
    if v < 26 then ('A' as int + v) as char
    else if v < 52 then ('a' as int + (v - 26)) as char
    else if v < 62 then ('0' as int + (v - 52)) as char
    else if v == 62 then '+'
    else '/'
  }

  /** The 6-bit group an alphabet character stands for. */
  function SextetValue(c: char): (v: int)
    requires IsAlphabetChar(c)
    ensures 0 <= v < 64
  {
    if 'A' <= c <= 'Z' then c as int - 'A' as int
    else if 'a' <= c <= 'z' then c as int - 'a' as int + 26
    else if '0' <= c <= '9' then c as int - '0' as int + 52
    else if c == '+' then 62
    else 63
  }

  lemma SextetRoundTrip(v: int)
    requires 0 <= v < 64
    ensures SextetValue(SextetChar(v)) == v
  {
  }

  // ---------------------------------------------------------------------
  // Encoding (Convert.ToBase64String)
  // ---------------------------------------------------------------------

  function EncodeThree(a: byte, b: byte, c: byte): string {
    [SextetChar(a / 4), SextetChar((a % 4) * 16 + b / 16),
     SextetChar((b % 16) * 4 + c / 64), SextetChar(c % 64)]
  }

  function EncodeTwo(a: byte, b: byte): string {
    [SextetChar(a / 4), SextetChar((a % 4) * 16 + b / 16), SextetChar((b % 16) * 4), '=']
  }

  function EncodeOne(a: byte): string {
    [SextetChar(a / 4), SextetChar((a % 4) * 16), '=', '=']
  }

  /** Standard base64 with `=` padding: four characters per started group of three bytes,
      all of them from the alphabet or the pad character. */
  function Base64Encode(bytes: seq<byte>): (s: string)
    ensures |s| == 4 * ((|bytes| + 2) / 3)
    ensures forall i :: 0 <= i < |s| ==> IsAlphabetChar(s[i]) || s[i] == '='
    decreases |bytes|
  {
    if |bytes| == 0 then ""
    else if |bytes| == 1 then EncodeOne(bytes[0])
    else if |bytes| == 2 then EncodeTwo(bytes[0], bytes[1])
    else EncodeThree(bytes[0], bytes[1], bytes[2]) + Base64Encode(bytes[3..])
  }

  // ---------------------------------------------------------------------
  // Decoding (Convert.FromBase64String)
  // ---------------------------------------------------------------------

  /** The characters the .NET decoder skips wherever they appear. */
  predicate IsBase64WhiteSpace(c: char) {
    c == ' ' || c == '\t' || c == '\r' || c == '\n'
  }

  function StripBase64WhiteSpace(s: string): (r: string)
    ensures |r| <= |s|
    ensures forall i :: 0 <= i < |r| ==> !IsBase64WhiteSpace(r[i])
  {
    if |s| == 0 then ""
    else if IsBase64WhiteSpace(s[0]) then StripBase64WhiteSpace(s[1..])
    else [s[0]] + StripBase64WhiteSpace(s[1..])
  }

  /** A group of four alphabet characters gives three bytes. */
  function DecodeFullQuad(q: string): Option<seq<byte>>
    requires |q| == 4
  {
    if IsAlphabetChar(q[0]) && IsAlphabetChar(q[1]) && IsAlphabetChar(q[2]) && IsAlphabetChar(q[3]) then
      var v0, v1, v2, v3 := SextetValue(q[0]), SextetValue(q[1]), SextetValue(q[2]), SextetValue(q[3]);
      Some([v0 * 4 + v1 / 16, (v1 % 16) * 16 + v2 / 4, (v2 % 4) * 64 + v3])
    else None
  }

  /** The last group may end in one or two pad characters. */
  function DecodeLastQuad(q: string): Option<seq<byte>>
    requires |q| == 4
  {
    if q[2] == '=' && q[3] == '=' then
      if IsAlphabetChar(q[0]) && IsAlphabetChar(q[1]) then
        Some([SextetValue(q[0]) * 4 + SextetValue(q[1]) / 16])
      else None
    else if q[3] == '=' then
      if IsAlphabetChar(q[0]) && IsAlphabetChar(q[1]) && IsAlphabetChar(q[2]) then
        var v0, v1, v2 := SextetValue(q[0]), SextetValue(q[1]), SextetValue(q[2]);
        Some([v0 * 4 + v1 / 16, (v1 % 16) * 16 + v2 / 4])
      else None
    else DecodeFullQuad(q)
  }

  function DecodeQuads(s: string): Option<seq<byte>>
    decreases |s|
  {
    if |s| == 0 then Some([])
    else if |s| < 4 then None
    else if |s| == 4 then DecodeLastQuad(s)
    else
      match DecodeFullQuad(s[..4])
      case None => None
      case Some(head) =>
        match DecodeQuads(s[4..])
        case None => None
        case Some(tail) => Some(head + tail)
  }

  /** `Convert.FromBase64String`: `None` where it throws `FormatException`. */
  function Base64Decode(s: string): Option<seq<byte>> {
    DecodeQuads(StripBase64WhiteSpace(s))
  }

  // ---------------------------------------------------------------------
  // Properties of the base64 pair
  // ---------------------------------------------------------------------

  lemma ArithThree(a: byte, b: byte, c: byte)
    ensures var v1, v2 := (a % 4) * 16 + b / 16, (b % 16) * 4 + c / 64;
      && (a / 4) * 4 + v1 / 16 == a
      && (v1 % 16) * 16 + v2 / 4 == b
      && (v2 % 4) * 64 + c % 64 == c
  {
  }

  lemma ArithTwo(a: byte, b: byte)
    ensures var v1, v2 := (a % 4) * 16 + b / 16, (b % 16) * 4;
      && (a / 4) * 4 + v1 / 16 == a
      && (v1 % 16) * 16 + v2 / 4 == b
  {
  }

  lemma ArithOne(a: byte)
    ensures (a / 4) * 4 + ((a % 4) * 16) / 16 == a
  {
  }

  lemma DecodeEncodeThree(a: byte, b: byte, c: byte)
    ensures DecodeFullQuad(EncodeThree(a, b, c)) == Some([a, b, c])
    ensures DecodeLastQuad(EncodeThree(a, b, c)) == Some([a, b, c])
  {
    var v0, v1, v2, v3 := a / 4, (a % 4) * 16 + b / 16, (b % 16) * 4 + c / 64, c % 64;
    var q := EncodeThree(a, b, c);
    assert q == [SextetChar(v0), SextetChar(v1), SextetChar(v2), SextetChar(v3)];
    SextetRoundTrip(v0);
    SextetRoundTrip(v1);
    SextetRoundTrip(v2);
    SextetRoundTrip(v3);
    ArithThree(a, b, c);
  }

  lemma DecodeEncodeTwo(a: byte, b: byte)
    ensures DecodeLastQuad(EncodeTwo(a, b)) == Some([a, b])
  {
    var v0, v1, v2 := a / 4, (a % 4) * 16 + b / 16, (b % 16) * 4;
    var q := EncodeTwo(a, b);
    assert q == [SextetChar(v0), SextetChar(v1), SextetChar(v2), '='];
    SextetRoundTrip(v0);
    SextetRoundTrip(v1);
    SextetRoundTrip(v2);
    ArithTwo(a, b);
  }

  lemma DecodeEncodeOne(a: byte)
    ensures DecodeLastQuad(EncodeOne(a)) == Some([a])
  {
    var v0, v1 := a / 4, (a % 4) * 16;
    assert EncodeOne(a) == [SextetChar(v0), SextetChar(v1), '=', '='];
    SextetRoundTrip(v0);
    SextetRoundTrip(v1);
    ArithOne(a);
  }

  lemma DecodeQuadsCons(head: string, rest: string, h: seq<byte>, t: seq<byte>)
    requires |head| == 4 && |rest| > 0
    requires DecodeFullQuad(head) == Some(h) && DecodeQuads(rest) == Some(t)
    ensures DecodeQuads(head + rest) == Some(h + t)
  {
    var s := head + rest;
    assert s[..4] == head;
    assert s[4..] == rest;
  }

  lemma LastQuadDecodes(q: string, bytes: seq<byte>)
    requires |q| == 4 && DecodeLastQuad(q) == Some(bytes)
    ensures DecodeQuads(q) == Some(bytes)
  {
  }

  lemma OneByteDecodes(bytes: seq<byte>)
    requires |bytes| == 1
    ensures DecodeQuads(Base64Encode(bytes)) == Some(bytes)
  {
    assert Base64Encode(bytes) == EncodeOne(bytes[0]);
    DecodeEncodeOne(bytes[0]);
    assert bytes == [bytes[0]];
    LastQuadDecodes(EncodeOne(bytes[0]), bytes);
  }

  lemma TwoBytesDecode(bytes: seq<byte>)
    requires |bytes| == 2
    ensures DecodeQuads(Base64Encode(bytes)) == Some(bytes)
  {
    assert Base64Encode(bytes) == EncodeTwo(bytes[0], bytes[1]);
    DecodeEncodeTwo(bytes[0], bytes[1]);
    assert bytes == [bytes[0], bytes[1]];
    LastQuadDecodes(EncodeTwo(bytes[0], bytes[1]), bytes);
  }

  lemma ThreeBytesDecode(bytes: seq<byte>)
    requires |bytes| == 3
    ensures DecodeQuads(Base64Encode(bytes)) == Some(bytes)
  {
    assert Base64Encode(bytes[3..]) == "";
    assert Base64Encode(bytes) == EncodeThree(bytes[0], bytes[1], bytes[2]);
    DecodeEncodeThree(bytes[0], bytes[1], bytes[2]);
    ExactlyThree(bytes);
    LastQuadDecodes(EncodeThree(bytes[0], bytes[1], bytes[2]), bytes);
  }

  lemma EncodeUnfoldLong(bytes: seq<byte>)
    requires |bytes| > 3
    ensures Base64Encode(bytes) == EncodeThree(bytes[0], bytes[1], bytes[2]) + Base64Encode(bytes[3..])
  {
  }

  lemma ExactlyThree<T>(s: seq<T>)
    requires |s| == 3
    ensures s == [s[0], s[1], s[2]]
  {
  }

  lemma SplitThree<T>(s: seq<T>)
    requires |s| >= 3
    ensures s == [s[0], s[1], s[2]] + s[3..]
  {
  }

  lemma LongEncodingDecodes(bytes: seq<byte>)
    requires |bytes| > 3
    requires DecodeQuads(Base64Encode(bytes[3..])) == Some(bytes[3..])
    ensures DecodeQuads(Base64Encode(bytes)) == Some(bytes)
  {
    var a, b, c, rest := bytes[0], bytes[1], bytes[2], bytes[3..];
    EncodeUnfoldLong(bytes);
    DecodeEncodeThree(a, b, c);
    SplitThree(bytes);
    DecodeQuadsCons(EncodeThree(a, b, c), Base64Encode(rest), [a, b, c], rest);
  }

  lemma {:induction false} DecodeQuadsEncode(bytes: seq<byte>)
    ensures DecodeQuads(Base64Encode(bytes)) == Some(bytes)
    decreases |bytes|
  {
    if |bytes| == 1 {
      OneByteDecodes(bytes);
    } else if |bytes| == 2 {
      TwoBytesDecode(bytes);
    } else if |bytes| == 3 {
      ThreeBytesDecode(bytes);
    } else if |bytes| > 3 {
      DecodeQuadsEncode(bytes[3..]);
      LongEncodingDecodes(bytes);
    }
  }

  lemma {:induction false} StripKeepsCleanString(s: string)
    requires forall i :: 0 <= i < |s| ==> !IsBase64WhiteSpace(s[i])
    ensures StripBase64WhiteSpace(s) == s
  {
    if |s| > 0 {
      StripKeepsCleanString(s[1..]);
      assert s == [s[0]] + s[1..];
    }
  }

  /** Round trip: decoding what `Convert.ToBase64String` produced gives the bytes back. */
  lemma DecodeEncode(bytes: seq<byte>)
    ensures Base64Decode(Base64Encode(bytes)) == Some(bytes)
  {
    StripKeepsCleanString(Base64Encode(bytes));
    DecodeQuadsEncode(bytes);
  }

  /** Consequence of the round trip: distinct byte strings have distinct encodings. */
  lemma EncodeInjective(a: seq<byte>, b: seq<byte>)
    requires a != b
    ensures Base64Encode(a) != Base64Encode(b)
  {
    DecodeEncode(a);
    DecodeEncode(b);
  }

  lemma {:induction false} DecodeQuadsLength(s: string)
    ensures DecodeQuads(s).Some? ==> 4 * |DecodeQuads(s).value| <= 3 * |s|
    decreases |s|
  {
    if |s| > 4 {
      DecodeQuadsLength(s[4..]);
    }
  }

  /** Decoding yields at most three bytes for every four characters of input. */
  lemma DecodedLengthBound(s: string)
    ensures Base64Decode(s).Some? ==> 4 * |Base64Decode(s).value| <= 3 * |s|
  {
    DecodeQuadsLength(StripBase64WhiteSpace(s));
  }

  lemma {:induction false} DecodeQuadsOfAlphabet(s: string)
    requires |s| % 4 == 0
    requires forall i :: 0 <= i < |s| ==> IsAlphabetChar(s[i])
    ensures DecodeQuads(s).Some? && 4 * |DecodeQuads(s).value| == 3 * |s|
    decreases |s|
  {
    if |s| > 4 {
      DecodeQuadsOfAlphabet(s[4..]);
    }
  }

  /** Any text made of alphabet characters whose length is a multiple of four
      is accepted by the decoder, at three bytes per four characters. */
  lemma AlphabetTextDecodes(s: string)
    requires |s| % 4 == 0
    requires forall i :: 0 <= i < |s| ==> IsAlphabetChar(s[i])
    ensures Base64Decode(s).Some? && 4 * |Base64Decode(s).value| == 3 * |s|
  {
    StripKeepsCleanString(s);
    DecodeQuadsOfAlphabet(s);
  }

  // ---------------------------------------------------------------------
  // UTF-8 (Encoding.UTF8.GetBytes)
  // ---------------------------------------------------------------------

  /** One to four bytes per Unicode scalar value, by the ranges of section 3 of RFC 3629:
      an ASCII character is its own byte; otherwise a lead byte carrying the length and
      the high bits, then continuation bytes of six bits each. */
  function Utf8EncodeChar(c: char): (r: seq<byte>)
    ensures 1 <= |r| <= 4
    ensures |r| == 1 <==> c as int < 0x80
    ensures |r| == 2 <==> 0x80 <= c as int < 0x800
    ensures |r| == 3 <==> 0x800 <= c as int < 0x10000
    ensures |r| == 4 <==> 0x10000 <= c as int
    ensures c as int < 0x80 ==> r == [c as int]
    ensures forall i :: 1 <= i < |r| ==> 0x80 <= r[i] < 0xC0
    ensures |r| == 2 ==>
      && 0xC0 <= r[0] < 0xE0
      && (r[0] as int - 0xC0) * 64 + (r[1] as int - 0x80) == c as int
    ensures |r| == 3 ==>
      && 0xE0 <= r[0] < 0xF0
      && (r[0] as int - 0xE0) * 4096 + (r[1] as int - 0x80) * 64 + (r[2] as int - 0x80) == c as int
    ensures |r| == 4 ==>
      && 0xF0 <= r[0] < 0xF8
      && (r[0] as int - 0xF0) * 262144 + (r[1] as int - 0x80) * 4096
         + (r[2] as int - 0x80) * 64 + (r[3] as int - 0x80) == c as int
  {
    var cp := c as int;
    if cp < 0x80 then [cp]
    else if cp < 0x800 then
      Sextets(cp);
      [0xC0 + cp / 64, 0x80 + cp % 64]
    else if cp < 0x10000 then
      Sextets(cp);
      [0xE0 + cp / 4096, 0x80 + (cp / 64) % 64, 0x80 + cp % 64]
    else
      Sextets(cp);
      [0xF0 + cp / 262144, 0x80 + (cp / 4096) % 64, 0x80 + (cp / 64) % 64, 0x80 + cp % 64]
  }

  /** Six-bit groups of a code point: the quotients and remainders by 64 that
      `Utf8EncodeChar` takes, and how they recombine. */
  lemma Sextets(n: int)
    requires 0 <= n < 0x110000
    ensures 0 <= n % 64 < 64 && 0 <= (n / 64) % 64 < 64 && 0 <= (n / 4096) % 64 < 64
    ensures n == (n / 64) * 64 + n % 64
    ensures n / 64 == (n / 4096) * 64 + (n / 64) % 64
    ensures n / 4096 == (n / 262144) * 64 + (n / 4096) % 64
    ensures n / 4096 == (n / 64) / 64 && n / 262144 == (n / 4096) / 64
    ensures 0 <= n / 262144 <= 4
  {
    DivModBy64(n);
    DivModBy64(n / 64);
    DivModBy64(n / 4096);
  }

  lemma DivModBy64(n: int)
    requires n >= 0
    ensures n / 64 >= 0 && 0 <= n % 64 < 64 && n == (n / 64) * 64 + n % 64
    ensures n / 64 / 64 == n / 4096
  {
  }

  /** The UTF-8 bytes of a string: at least one and at most four per character, and an
      ASCII string's own code units. */
  function Utf8Encode(s: string): (r: seq<byte>)
    ensures |s| <= |r| <= 4 * |s|
    ensures (forall i :: 0 <= i < |s| ==> s[i] as int < 0x80) ==>
      |r| == |s| && forall i :: 0 <= i < |s| ==> r[i] == s[i] as int
  {
    if |s| == 0 then [] else Utf8EncodeChar(s[0]) + Utf8Encode(s[1..])
  }
}
