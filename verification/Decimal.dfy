// Decimal numerals, as Rust's `{}` and `{:06}` print them.
module Decimal {
  function Digit(n: nat): char
    requires n < 10
  {
    "0123456789"[n]
  }

  function Print(n: nat): (s: string)
    ensures s != "" && '-' !in s
  {
    if n < 10 then [Digit(n)] else Print(n / 10) + [Digit(n % 10)]
  }

  function Padded(n: nat, width: nat): (s: string)
    ensures '-' !in s
  {
    var s := Print(n);
    if |s| >= width then s else seq(width - |s|, _ => '0') + s
  }

  function Value(s: string): nat {
    if s == "" then 0
    else
      var d := s[|s| - 1] as int - '0' as int;
      10 * Value(s[..|s| - 1]) + (if 0 <= d < 10 then d else 0)
  }

  lemma {:induction false} PrintValue(n: nat)
    ensures Value(Print(n)) == n
  {
    if n < 10 {
      AppendDigit("", n);
      assert "" + [Digit(n)] == Print(n);
    } else {
      PrintValue(n / 10);
      AppendDigit(Print(n / 10), n % 10);
    }
  }

  lemma AppendDigit(s: string, n: nat)
    requires n < 10
    ensures Value(s + [Digit(n)]) == 10 * Value(s) + n
  {
    assert (s + [Digit(n)])[..|s|] == s;
  }

  lemma {:induction false} LeadingZeros(z: string, s: string)
    requires forall i | 0 <= i < |z| :: z[i] == '0'
    ensures Value(z + s) == Value(s)
  {
    if s == "" {
      assert z + s == z;
      if z != "" {
        LeadingZeros(z[..|z| - 1], "");
        assert z[..|z| - 1] + "" == z[..|z| - 1];
      }
    } else {
      assert (z + s)[..|z + s| - 1] == z + s[..|s| - 1];
      LeadingZeros(z, s[..|s| - 1]);
    }
  }

  lemma PaddedInjective(m: nat, n: nat, width: nat)
    requires Padded(m, width) == Padded(n, width)
    ensures m == n
  {
    PaddedValue(m, width);
    PaddedValue(n, width);
  }

  lemma PaddedValue(n: nat, width: nat)
    ensures Value(Padded(n, width)) == n
  {
    hide Print;
    hide Value;
    PrintValue(n);
    var s := Print(n);
    if |s| < width {
      LeadingZeros(seq(width - |s|, _ => '0'), s);
    }
  }

  /** A numeral ends where the first '-' stands. */
  lemma {:induction false} NumeralPrefix(p: string, x: string, q: string, y: string)
    requires '-' !in p && '-' !in q && p + "-" + x == q + "-" + y
    ensures p == q
  {
    assert (p + "-" + x)[0] == (if p == "" then '-' else p[0]);
    assert (q + "-" + y)[0] == (if q == "" then '-' else q[0]);
    if p != "" && q != "" {
      assert p[1..] + "-" + x == (p + "-" + x)[1..];
      assert q[1..] + "-" + y == (q + "-" + y)[1..];
      NumeralPrefix(p[1..], x, q[1..], y);
    }
  }
}
