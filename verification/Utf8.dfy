// `str::as_bytes`: the UTF-8 encoding of section 3 of RFC 3629.
module Utf8 {
  import opened Bytes

  function EncodeChar(c: char): (b: seq<Byte>)
    ensures b != []
  {
    var n := c as int;
    if n < 0x80 then [n]
    else if n < 0x800 then [0xC0 + n / 64, 0x80 + n % 64]
    else if n < 0x1_0000 then [0xE0 + n / 64 / 64, 0x80 + n / 64 % 64, 0x80 + n % 64]
    else [0xF0 + n / 64 / 64 / 64, 0x80 + n / 64 / 64 % 64, 0x80 + n / 64 % 64, 0x80 + n % 64]
  }

  function Encode(s: string): seq<Byte> {
    if s == "" then [] else EncodeChar(s[0]) + Encode(s[1..])
  }

  /** Examples of section 7 of RFC 3629, one for each length above one byte, and the last code point. */
  lemma KnownEncodings()
    ensures EncodeChar(0x391 as char) == [0xCE, 0x91]
    ensures EncodeChar(0x2262 as char) == [0xE2, 0x89, 0xA2]
    ensures EncodeChar(0x233B4 as char) == [0xF0, 0xA3, 0x8E, 0xB4]
    ensures EncodeChar(0x10FFFF as char) == [0xF4, 0x8F, 0xBF, 0xBF]
  {
  }

  /** A text of 7-bit characters is its own bytes. */
  lemma {:induction false} AsciiIsItself(s: string)
    requires forall i | 0 <= i < |s| :: s[i] as int < 0x80
    ensures |Encode(s)| == |s| && forall i | 0 <= i < |s| :: Encode(s)[i] == s[i] as int
  {
    if s != "" {
      AsciiIsItself(s[1..]);
    }
  }

  /** Bytes below 0x80 come from their own characters only. */
  lemma {:induction false} ByteMeansChar(s: string, c: char, i: nat)
    requires c as int < 0x80 && i < |Encode(s)| && Encode(s)[i] == c as int
    ensures c in s
  {
    var n := |EncodeChar(s[0])|;
    if i < n {
      assert EncodeChar(s[0])[i] == c as int;
    } else {
      ByteMeansChar(s[1..], c, i - n);
    }
  }

  /** The first byte tells how many follow. */
  function Width(first: Byte): nat {
    if first < 0x80 then 1 else if first < 0xE0 then 2 else if first < 0xF0 then 3 else 4
  }

  lemma FirstByteTellsWidth(c: char)
    ensures |EncodeChar(c)| == Width(EncodeChar(c)[0])
  {
  }

  /** The number in the free bits of an encoding. */
  function Point(b: seq<Byte>): int {
    if |b| == 1 then b[0]
    else if |b| == 2 then 64 * Low(b[0], 0xC0) + Low(b[1], 0x80)
    else if |b| == 3 then 64 * (64 * Low(b[0], 0xE0) + Low(b[1], 0x80)) + Low(b[2], 0x80)
    else if |b| == 4 then
      64 * (64 * (64 * Low(b[0], 0xF0) + Low(b[1], 0x80)) + Low(b[2], 0x80)) + Low(b[3], 0x80)
    else 0
  }

  function Low(b: int, mark: int): int { b - mark }

  lemma PointOfChar(c: char)
    ensures Point(EncodeChar(c)) == c as int
  {
    var n := c as int;
    Sixes(n);
    Sixes(n / 64);
    Sixes(n / 64 / 64);
  }

  lemma Sixes(n: nat)
    ensures n == 64 * (n / 64) + n % 64
  {
  }

  lemma CharPeel(c: char, x: seq<Byte>, d: char, y: seq<Byte>)
    requires EncodeChar(c) + x == EncodeChar(d) + y
    ensures c == d && x == y
  {
    var e, f := EncodeChar(c), EncodeChar(d);
    assert e[0] == (e + x)[0] && f[0] == (f + y)[0];
    FirstByteTellsWidth(c);
    FirstByteTellsWidth(d);
    assert e == (e + x)[..|e|] && f == (f + y)[..|e|];
    PointOfChar(c);
    PointOfChar(d);
    assert x == (e + x)[|e|..] && y == (f + y)[|e|..];
  }

  /** Different texts have different bytes. */
  lemma {:induction false} EncodeInjective(s: string, t: string)
    requires Encode(s) == Encode(t)
    ensures s == t
  {
    if s != "" && t != "" {
      CharPeel(s[0], Encode(s[1..]), t[0], Encode(t[1..]));
      EncodeInjective(s[1..], t[1..]);
    }
  }
}
