// JSON string literals as `serde_json` writes them, and the fact that they can be
// read back: a literal determines its text and where it ends.
module Json {
  import opened Wrappers

  const HEX: string := "0123456789abcdef"

  function EscapeChar(c: char): (s: string)
    ensures s != ""
  {
    var n := c as int;
    if c == '"' then "\\\""
    else if c == '\\' then "\\\\"
    else if n == 8 then "\\b"
    else if n == 9 then "\\t"
    else if n == 10 then "\\n"
    else if n == 12 then "\\f"
    else if n == 13 then "\\r"
    else if n < 32 then "\\u00" + [HEX[n / 16], HEX[n % 16]]
    else [c]
  }

  /** The literal for `s`, then `rest`. */
  function QuoteThen(s: string, rest: string): string {
    "\"" + EscapeThen(s, rest)
  }

  function EscapeThen(s: string, rest: string): string {
    if s == "" then "\"" + rest else EscapeChar(s[0]) + EscapeThen(s[1..], rest)
  }

  function HexValue(c: char): Option<nat> {
    if '0' <= c <= '9' then Some(c as int - '0' as int)
    else if 'a' <= c <= 'f' then Some(c as int - 'a' as int + 10)
    else None
  }

  datatype Read = Read(c: char, size: nat)

  /** The character an escape or a plain character stands for, and its width. */
  function ReadChar(t: string): (r: Option<Read>)
    ensures r.Some? ==> 0 < r.value.size <= |t|
  {
    if t == "" || t[0] == '"' then None
    else if t[0] != '\\' then Some(Read(t[0], 1))
    else if |t| < 2 then None
    else if t[1] == '"' || t[1] == '\\' then Some(Read(t[1], 2))
    else if t[1] == 'b' then Some(Read(8 as char, 2))
    else if t[1] == 't' then Some(Read(9 as char, 2))
    else if t[1] == 'n' then Some(Read(10 as char, 2))
    else if t[1] == 'f' then Some(Read(12 as char, 2))
    else if t[1] == 'r' then Some(Read(13 as char, 2))
    else if |t| < 6 || HexValue(t[4]) == None || HexValue(t[5]) == None then None
    else
      var n := 16 * HexValue(t[4]).value + HexValue(t[5]).value;
      if n < 128 then Some(Read(n as char, 6)) else None
  }

  /** Reads up to the closing quote; returns the text and what follows the quote. */
  function ReadText(t: string): Option<(string, string)> {
    if t == "" then None
    else if t[0] == '"' then Some(("", t[1..]))
    else
      match ReadChar(t)
      case None => None
      case Some(r) =>
        match ReadText(t[r.size..])
        case None => None
        case Some((text, rest)) => Some(([r.c] + text, rest))
  }

  lemma HexDigits(n: nat)
    requires n < 16
    ensures HexValue(HEX[n]) == Some(n)
  {
  }

  lemma ReadEscaped(c: char, rest: string)
    ensures ReadChar(EscapeChar(c) + rest) == Some(Read(c, |EscapeChar(c)|))
  {
    var n := c as int;
    if n < 32 {
      HexDigits(n / 16);
      HexDigits(n % 16);
    }
  }

  /** Reading back what was written gives the text and the rest unchanged. */
  lemma {:induction false} ReadQuoted(s: string, rest: string)
    ensures ReadText(EscapeThen(s, rest)) == Some((s, rest))
  {
    if s == "" {
      assert EscapeThen(s, rest)[1..] == rest;
    } else {
      var tail := EscapeThen(s[1..], rest);
      ReadQuoted(s[1..], rest);
      ReadEscaped(s[0], tail);
      EscapeStart(s[0]);
      assert (EscapeChar(s[0]) + tail)[|EscapeChar(s[0])|..] == tail;
      assert s == [s[0]] + s[1..];
    }
  }

  lemma EscapeStart(c: char)
    ensures EscapeChar(c)[0] != '"'
  {
  }

  /** Two literals followed by anything agree only if text and continuation agree. */
  lemma QuotePeel(a: string, ra: string, b: string, rb: string)
    requires QuoteThen(a, ra) == QuoteThen(b, rb)
    ensures a == b && ra == rb
  {
    ReadQuoted(a, ra);
    ReadQuoted(b, rb);
    DropPrefix("\"", EscapeThen(a, ra), EscapeThen(b, rb));
  }

  lemma DropPrefix(p: string, s: string, t: string)
    requires p + s == p + t
    ensures s == t
  {
    assert (p + s)[|p|..] == s && (p + t)[|p|..] == t;
  }

  // ---- Objects ----------------------------------------------------------------

  datatype Field = Field(name: string, value: string)

  /** The members of an object of string fields, in order, and its closing brace. */
  function Members(fields: seq<Field>, separator: string): string {
    if fields == [] then "}"
    else separator + QuoteThen(fields[0].name, ":" + QuoteThen(fields[0].value, Members(fields[1..], ",")))
  }

  /** A struct of strings as `serde_json` writes it. */
  function ObjectText(fields: seq<Field>): string { "{" + Members(fields, "") }

  /** Characters that need no escape. */
  predicate Plain(s: string) {
    forall i | 0 <= i < |s| :: s[i] as int >= 32 && s[i] != '"' && s[i] != '\\'
  }

  lemma {:induction false} PlainEscaped(s: string, rest: string)
    requires Plain(s)
    ensures EscapeThen(s, rest) == s + "\"" + rest
  {
    if s == "" {
      assert "" + "\"" + rest == "\"" + rest;
    } else {
      PlainEscaped(s[1..], rest);
      assert s == [s[0]] + s[1..];
    }
  }

  /** One member with a plain name, written out. */
  lemma MemberText(separator: string, name: string, value: string, others: seq<Field>)
    requires Plain(name)
    ensures Members([Field(name, value)] + others, separator)
         == separator + "\"" + name + "\":" + QuoteThen(value, Members(others, ","))
  {
    hide EscapeThen;
    var rest := QuoteThen(value, Members(others, ","));
    PlainEscaped(name, ":" + rest);
    assert ([Field(name, value)] + others)[1..] == others;
    assert "\"" + ":" + rest == "\":" + rest;
  }
}
