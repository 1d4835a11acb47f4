/**
 * `btoa`, as used by `getCacheKey` (static/feeder.js:4-6): the base64 encoding
 * of section 4 of RFC 4648, applied to a string whose characters are all in
 * Latin-1 (code points below 256); any other character makes `btoa` throw.
 * The decoder exists to prove that distinct URLs get distinct cache keys.
 */
module Base64 {
  import opened Wrappers

  predicate IsByte(n: int) { 0 <= n < 256 }

  predicate IsLatin1(s: string)
  {
    forall i :: 0 <= i < |s| ==> IsByte(s[i] as int)
  }

  predicate AreBytes(b: seq<int>)
  {
    forall i :: 0 <= i < |b| ==> IsByte(b[i])
  }

  /** The alphabet of Table 1 of RFC 4648: A-Z, a-z, 0-9, '+', '/'. */
  function DigitChar(d: int): (c: char)
    requires 0 <= d < 64
    ensures c != '='
  {
    if d < 26 then ('A' as int + d) as char
    else if d < 52 then ('a' as int + d - 26) as char
    else if d < 62 then ('0' as int + d - 52) as char
    else if d == 62 then '+'
    else '/'
  }

  /** The value of an alphabet character (anything else reads as 63). */
  function DigitValue(c: char): int
  {
    if 'A' <= c <= 'Z' then c as int - 'A' as int
    else if 'a' <= c <= 'z' then c as int - 'a' as int + 26
    else if '0' <= c <= '9' then c as int - '0' as int + 52
    else if c == '+' then 62
    else 63
  }

  lemma DigitRoundTrip(d: int)
    requires 0 <= d < 64
    ensures DigitValue(DigitChar(d)) == d
  {
  }

  /** Three bytes as four digits. */
  function Group3(b0: int, b1: int, b2: int): string
    requires IsByte(b0) && IsByte(b1) && IsByte(b2)
  {
    [DigitChar(b0 / 4), DigitChar((b0 % 4) * 16 + b1 / 16), DigitChar((b1 % 16) * 4 + b2 / 64), DigitChar(b2 % 64)]
  }

  /** Two trailing bytes as three digits and one '='. */
  function Group2(b0: int, b1: int): string
    requires IsByte(b0) && IsByte(b1)
  {
    [DigitChar(b0 / 4), DigitChar((b0 % 4) * 16 + b1 / 16), DigitChar((b1 % 16) * 4), '=']
  }

  /** One trailing byte as two digits and two '='. */
  function Group1(b0: int): string
    requires IsByte(b0)
  {
    [DigitChar(b0 / 4), DigitChar((b0 % 4) * 16), '=', '=']
  }

  /** Encoding of a byte string: each 3-byte group becomes 4 digits, a short tail is padded with '='. */
  function Encode(b: seq<int>): string
    requires AreBytes(b)
    decreases |b|
  {
    if |b| == 0 then ""
    else if |b| == 1 then Group1(b[0])
    else if |b| == 2 then Group2(b[0], b[1])
    else Group3(b[0], b[1], b[2]) + Encode(b[3..])
  }

  /** The bytes of one 4-digit group. */
  function DecodeGroup(c0: char, c1: char, c2: char, c3: char): seq<int>
  {
    var d0, d1, d2, d3 := DigitValue(c0), DigitValue(c1), DigitValue(c2), DigitValue(c3);
    var b0 := d0 * 4 + d1 / 16;
    if c2 == '=' then [b0]
    else
      var b1 := (d1 % 16) * 16 + d2 / 4;
      if c3 == '=' then [b0, b1]
      else [b0, b1, (d2 % 4) * 64 + d3]
  }

  /** Decoding of what `Encode` produces, one 4-digit group at a time. */
  function Decode(s: string): seq<int>
    decreases |s|
  {
    if |s| < 4 then []
    else if s[2] == '=' || s[3] == '=' then DecodeGroup(s[0], s[1], s[2], s[3])
    else DecodeGroup(s[0], s[1], s[2], s[3]) + Decode(s[4..])
  }

  lemma GroupRoundTrip(b0: int, b1: int, b2: int)
    requires IsByte(b0) && IsByte(b1) && IsByte(b2)
    ensures ((b0 / 4) * 4 + ((b0 % 4) * 16 + b1 / 16) / 16) == b0
    ensures ((((b0 % 4) * 16 + b1 / 16) % 16) * 16 + ((b1 % 16) * 4 + b2 / 64) / 4) == b1
    ensures ((((b1 % 16) * 4 + b2 / 64) % 4) * 64 + b2 % 64) == b2
  {
  }

  lemma DecodeGroup3(b0: int, b1: int, b2: int)
    requires IsByte(b0) && IsByte(b1) && IsByte(b2)
    ensures var g := Group3(b0, b1, b2); g[2] != '=' && g[3] != '=' && DecodeGroup(g[0], g[1], g[2], g[3]) == [b0, b1, b2]
  {
    GroupRoundTrip(b0, b1, b2);
    DigitRoundTrip(b0 / 4);
    DigitRoundTrip((b0 % 4) * 16 + b1 / 16);
    DigitRoundTrip((b1 % 16) * 4 + b2 / 64);
    DigitRoundTrip(b2 % 64);
  }

  lemma DecodeGroup2(b0: int, b1: int)
    requires IsByte(b0) && IsByte(b1)
    ensures var g := Group2(b0, b1); g[2] != '=' && g[3] == '=' && DecodeGroup(g[0], g[1], g[2], g[3]) == [b0, b1]
  {
    GroupRoundTrip(b0, b1, 0);
    DigitRoundTrip(b0 / 4);
    DigitRoundTrip((b0 % 4) * 16 + b1 / 16);
    DigitRoundTrip((b1 % 16) * 4);
  }

  lemma DecodeGroup1(b0: int)
    requires IsByte(b0)
    ensures var g := Group1(b0); g[2] == '=' && DecodeGroup(g[0], g[1], g[2], g[3]) == [b0]
  {
    GroupRoundTrip(b0, 0, 0);
    DigitRoundTrip(b0 / 4);
    DigitRoundTrip((b0 % 4) * 16);
  }

  /** Decoding undoes encoding, so `Encode` is injective. */
  lemma {:induction false} DecodeEncode(b: seq<int>)
    requires AreBytes(b)
    ensures Decode(Encode(b)) == b
    decreases |b|
  {
    if |b| == 1 {
      DecodeGroup1(b[0]);
    } else if |b| == 2 {
      DecodeGroup2(b[0], b[1]);
    } else if |b| >= 3 {
      assert AreBytes(b[3..]);
      DecodeEncode(b[3..]);
      DecodeEncodeGroup(b);
    }
  }

  /** One full group: decoding the first four digits gives the first three bytes back, and decoding goes on after them. */
  lemma DecodeEncodeGroup(b: seq<int>)
    requires |b| >= 3 && AreBytes(b) && AreBytes(b[3..])
    requires Decode(Encode(b[3..])) == b[3..]
    ensures Decode(Encode(b)) == b
  {
    var g := Group3(b[0], b[1], b[2]);
    var rest := Encode(b[3..]);
    DecodeGroup3(b[0], b[1], b[2]);
    assert Encode(b) == g + rest;
    assert (g + rest)[4..] == rest;
    assert (g + rest)[..4] == g;
    assert Decode(g + rest) == [b[0], b[1], b[2]] + Decode(rest);
    assert b == [b[0], b[1], b[2]] + b[3..];
  }

  function CodePoints(s: string): (b: seq<int>)
    ensures |b| == |s|
    ensures forall i :: 0 <= i < |s| ==> b[i] == s[i] as int
  {
    if s == [] then [] else [s[0] as int] + CodePoints(s[1..])
  }

  /** `btoa(s)`, or None where `btoa` throws (a character outside Latin-1). */
  function Btoa(s: string): (r: Option<string>)
    ensures r.Some? <==> IsLatin1(s)
  {
    if IsLatin1(s) then Some(Encode(CodePoints(s))) else None
  }

  /** Distinct Latin-1 strings have distinct encodings. */
  lemma BtoaInjective(s: string, t: string)
    requires Btoa(s).Some? && Btoa(s) == Btoa(t)
    ensures s == t
  {
    DecodeEncode(CodePoints(s));
    DecodeEncode(CodePoints(t));
    assert CodePoints(s) == CodePoints(t);
    assert forall i :: 0 <= i < |s| ==> s[i] as int == t[i] as int;
  }
}
