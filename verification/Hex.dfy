// Lower-case hexadecimal, as `hash.rs` and the `hex` crate print it, and the
// `hex` crate's decoder, which also takes upper-case digits.
module Hex {
  import opened Bytes
  import opened Wrappers

  const DIGITS: string := "0123456789abcdef"

  function Pair(x: Byte): (s: string)
    ensures |s| == 2
  {
    [DIGITS[x / 16], DIGITS[x % 16]]
  }

  function Encode(b: seq<Byte>): (s: string)
    ensures |s| == 2 * |b|
  {
    if b == [] then "" else Pair(b[0]) + Encode(b[1..])
  }

  datatype HexError = OddLength | InvalidChar(c: char, index: nat)

  function Value(c: char): Option<nat> {
    if '0' <= c <= '9' then Some(c as int - '0' as int)
    else if 'a' <= c <= 'f' then Some(c as int - 'a' as int + 10)
    else if 'A' <= c <= 'F' then Some(c as int - 'A' as int + 10)
    else None
  }

  lemma ValueBelow16(c: char)
    ensures Value(c).Some? ==> Value(c).value < 16
  {
  }

  /** `hex::decode`: the length is checked first, then the digits in order. */
  function Decode(s: string): Result<seq<Byte>, HexError> {
    if |s| % 2 != 0 then Err(OddLength) else DecodeFrom(s, 0)
  }

  function DecodeFrom(s: string, i: nat): (r: Result<seq<Byte>, HexError>)
    requires |s| % 2 == 0 && i % 2 == 0 && i <= |s|
    ensures r.Ok? ==> |r.value| == (|s| - i) / 2
    decreases |s| - i
  {
    if i == |s| then Ok([])
    else if Value(s[i]) == None then Err(InvalidChar(s[i], i))
    else if Value(s[i + 1]) == None then Err(InvalidChar(s[i + 1], i + 1))
    else
      ValueBelow16(s[i]);
      ValueBelow16(s[i + 1]);
      match DecodeFrom(s, i + 2)
      case Err(e) => Err(e)
      case Ok(rest) => Ok([16 * Value(s[i]).value + Value(s[i + 1]).value] + rest)
  }

  lemma DigitValue(n: nat)
    requires n < 16
    ensures Value(DIGITS[n]) == Some(n)
  {
  }

  lemma PairValue(x: Byte)
    ensures Value(Pair(x)[0]) == Some(x / 16) && Value(Pair(x)[1]) == Some(x % 16)
  {
    DigitValue(x / 16);
    DigitValue(x % 16);
  }

  lemma {:induction false} DecodeSuffix(b: seq<Byte>, k: nat)
    requires k <= |b|
    ensures DecodeFrom(Encode(b), 2 * k) == Ok(b[k..])
    decreases |b| - k
  {
    hide Pair;
    hide Value;
    if k < |b| {
      EncodeAt(b, k);
      PairValue(b[k]);
      DecodeSuffix(b, k + 1);
      assert b[k..] == [b[k]] + b[k + 1..];
    } else {
      assert b[k..] == [];
    }
  }

  lemma {:induction false} EncodeAt(b: seq<Byte>, k: nat)
    requires k < |b|
    ensures Encode(b)[2 * k] == Pair(b[k])[0] && Encode(b)[2 * k + 1] == Pair(b[k])[1]
  {
    hide Pair;
    if k > 0 {
      EncodeAt(b[1..], k - 1);
    }
  }

  /** A digit's character code: `0` to `9`, then `a` to `f`. */
  function DigitCode(n: nat): nat { if n < 10 then 48 + n else 87 + n }

  lemma DigitIs(n: nat)
    requires n < 16
    ensures DIGITS[n] as int == DigitCode(n)
  {
  }

  /** Byte `k` is printed at places `2k` and `2k + 1`: its high digit, then its low one, both lower-case. */
  lemma EncodeDigits(b: seq<Byte>, k: nat)
    requires k < |b|
    ensures Encode(b)[2 * k] as int == DigitCode(b[k] / 16)
    ensures Encode(b)[2 * k + 1] as int == DigitCode(b[k] % 16)
  {
    hide DigitCode;
    EncodeAt(b, k);
    DigitIs(b[k] / 16);
    DigitIs(b[k] % 16);
  }

  /** What the decoder refuses: an odd length, or else the first character that is no digit, at its place. */
  lemma {:induction false} DecodeFails(s: string, i: nat)
    requires |s| % 2 == 0 && i % 2 == 0 && i <= |s|
    ensures DecodeFrom(s, i).Err? ==>
      exists k | i <= k < |s| ::
        && DecodeFrom(s, i) == Err(InvalidChar(s[k], k)) && Value(s[k]) == None
        && forall j | i <= j < k :: Value(s[j]).Some?
    ensures DecodeFrom(s, i).Ok? <==> forall j | i <= j < |s| :: Value(s[j]).Some?
    decreases |s| - i
  {
    hide Value;
    if i < |s| && Value(s[i]).Some? && Value(s[i + 1]).Some? {
      DecodeFails(s, i + 2);
    }
  }

  lemma RoundTrip(b: seq<Byte>)
    ensures Decode(Encode(b)) == Ok(b)
  {
    DecodeSuffix(b, 0);
  }

  lemma {:induction false} EncodeSnoc(b: seq<Byte>, x: Byte)
    ensures Encode(b + [x]) == Encode(b) + Pair(x)
  {
    hide Pair;
    if b == [] {
      assert [] + [x] == [x];
    } else {
      EncodeSnoc(b[1..], x);
      assert (b + [x])[1..] == b[1..] + [x];
    }
  }

  /** `hex` of hash.rs. */
  method Print(bytes: seq<Byte>) returns (s: string)
    ensures s == Encode(bytes)
  {
    s := "";
    for i := 0 to |bytes|
      invariant s == Encode(bytes[..i])
    {
      EncodeSnoc(bytes[..i], bytes[i]);
      assert bytes[..i + 1] == bytes[..i] + [bytes[i]];
      s := s + [DIGITS[bytes[i] / 16]];
      s := s + [DIGITS[bytes[i] % 16]];
    }
    assert bytes[..|bytes|] == bytes;
  }
}
