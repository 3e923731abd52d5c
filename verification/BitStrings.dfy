// Bit strings, most significant bit first, as FIPS 180-4 section 3.1 reads them,
// and the bits of a byte string.
module BitStrings {
  import opened Bytes

  type Bits = seq<bool>

  function Pow2(k: nat): (p: nat)
    ensures p > 0
  {
    if k == 0 then 1 else 2 * Pow2(k - 1)
  }

  function NatOf(b: Bits): (n: nat)
    ensures n < Pow2(|b|)
  {
    if b == [] then 0 else 2 * NatOf(b[..|b| - 1]) + (if b[|b| - 1] then 1 else 0)
  }

  function BitsOf(n: nat, k: nat): (b: Bits)
    ensures |b| == k
    decreases k, n
  {
    if k == 0 then [] else BitsOf(n / 2, k - 1) + [n % 2 == 1]
  }

  function ZeroBits(k: nat): Bits {
    seq(k, _ => false)
  }

  function ToBits(s: seq<Byte>): (b: Bits)
    ensures |b| == 8 * |s|
  {
    if s == [] then [] else ToBits(s[..|s| - 1]) + BitsOf(s[|s| - 1], 8)
  }

  lemma {:induction false} Pow2Sum(i: nat, j: nat)
    ensures Pow2(i + j) == Pow2(i) * Pow2(j)
  {
    if i > 0 {
      Pow2Sum(i - 1, j);
    }
  }

  lemma Pow2Of8()
    ensures Pow2(8) == 256
  {
    Pow2Sum(4, 4);
  }

  lemma Pow2Of32()
    ensures Pow2(32) == 0x1_0000_0000
  {
    Pow2Of8();
    Pow2Sum(8, 8);
    Pow2Sum(16, 16);
  }

  lemma Pow2Of64()
    ensures Pow2(64) == 0x1_0000_0000_0000_0000
  {
    Pow2Of32();
    Pow2Sum(32, 32);
  }

  lemma {:induction false} ToBitsConcat(s: seq<Byte>, t: seq<Byte>)
    ensures ToBits(s + t) == ToBits(s) + ToBits(t)
  {
    if t == [] {
      assert s + t == s;
    } else {
      var n := |t| - 1;
      assert (s + t)[..|s + t| - 1] == s + t[..n];
      ToBitsConcat(s, t[..n]);
      assert ToBits(s + t) == ToBits(s + t[..n]) + BitsOf(t[n], 8);
    }
  }

  lemma ToBitsOfMiddle(all: seq<Byte>, a: seq<Byte>, b: seq<Byte>, c: seq<Byte>, lo: nat, hi: nat)
    requires all == a + (b + c)
    requires lo == 8 * |a| && hi == 8 * |a| + 8 * |b|
    ensures hi <= |ToBits(all)| && ToBits(b) == ToBits(all)[lo..hi]
  {
    ToBitsConcat(a, b + c);
    ToBitsConcat(b, c);
    MiddleSlice(ToBits(all), ToBits(a), ToBits(b), ToBits(c), lo, hi);
  }

  lemma SplitSlice(s: seq<Byte>, i: nat, j: nat)
    requires i <= j <= |s|
    ensures s == s[..i] + (s[i..j] + s[j..])
  {
  }

  lemma ToBitsSlice(s: seq<Byte>, i: nat, j: nat)
    requires i <= j <= |s|
    ensures ToBits(s[i..j]) == ToBits(s)[8 * i..8 * j]
  {
    SplitSlice(s, i, j);
    ToBitsOfMiddle(s, s[..i], s[i..j], s[j..], 8 * i, 8 * j);
  }

  lemma MiddleSlice(all: Bits, a: Bits, b: Bits, c: Bits, lo: nat, hi: nat)
    requires all == a + (b + c) && lo == |a| && hi == |a| + |b|
    ensures b == all[lo..hi]
  {
  }

  lemma {:induction false} SplitBits(n: nat, k: nat, j: nat)
    ensures BitsOf(n, k + j) == BitsOf(Halved(n, j), k) + BitsOf(n, j)
    decreases j
  {
    if j == 0 {
      assert BitsOf(n, k + j) == BitsOf(n, k);
    } else {
      SplitBits(n / 2, k, j - 1);
      assert BitsOf(n, k + j) == BitsOf(n / 2, k + j - 1) + [n % 2 == 1];
      assert BitsOf(n, j) == BitsOf(n / 2, j - 1) + [n % 2 == 1];
    }
  }

  /** `n` shifted right `j` times. */
  function Halved(n: nat, j: nat): nat {
    if j == 0 then n else Halved(n / 2, j - 1)
  }

  lemma HalvedByte(n: nat)
    ensures Halved(n, 8) == n / 256
  {
    assert Halved(n, 8) == Halved(n / 2 / 2, 6) == Halved(n / 2 / 2 / 2 / 2, 4);
    var m := n / 16;
    assert m == n / 2 / 2 / 2 / 2;
    assert Halved(m, 4) == Halved(m / 2 / 2, 2) == m / 2 / 2 / 2 / 2 == m / 16;
  }

  lemma HalveSum(n: nat, m: nat, r: nat)
    requires n == 2 * m + r
    ensures n / 2 == m + r / 2 && n % 2 == r % 2
  {
  }

  lemma HalvedRemainder(n: nat, p: nat, d: nat, q: nat, r: nat)
    requires n == d * q + r && r < d && d == 2 * p
    ensures n / 2 % p == r / 2 && n % 2 == r % 2
  {
    DoubleProduct(p, q);
    HalveSum(n, p * q, r);
    DivisionUnique(n / 2, p, q, r / 2);
  }

  /** Halving commutes with reduction modulo an even number. */
  lemma HalveModulo(n: nat, p: nat, d: nat)
    requires p > 0 && d == 2 * p
    ensures n % d / 2 == n / 2 % p && n % d % 2 == n % 2
  {
    var q, r := Divide(n, d);
    HalvedRemainder(n, p, d, q, r);
  }

  lemma {:induction false} LowBits(n: nat, k: nat)
    ensures BitsOf(n % Pow2(k), k) == BitsOf(n, k)
    decreases k
  {
    if k > 0 {
      LowBits(n / 2, k - 1);
      HalveModulo(n, Pow2(k - 1), Pow2(k));
    }
  }

  lemma LowByte(n: nat, k: nat)
    ensures BitsOf(n, k + 8) == BitsOf(n / 256, k) + BitsOf(n % 256, 8)
  {
    SplitBits(n, k, 8);
    HalvedByte(n);
    Pow2Of8();
    LowBits(n, 8);
  }

  lemma {:induction false} BigEndianBits(n: nat, k: nat)
    ensures ToBits(BigEndian(n, k)) == BitsOf(n, 8 * k)
    decreases k
  {
    if k > 0 {
      BigEndianBits(n / 256, k - 1);
      LowByte(n, 8 * (k - 1));
      assert BigEndian(n, k)[..k - 1] == BigEndian(n / 256, k - 1);
    }
  }

  lemma {:induction false} ZeroBytesBits(n: nat)
    ensures ToBits(Zeros(n)) == ZeroBits(8 * n)
  {
    if n > 0 {
      ZeroBytesBits(n - 1);
      assert Zeros(n)[..n - 1] == Zeros(n - 1);
      ZeroByteBits(8);
    }
  }

  lemma {:induction false} ZeroByteBits(k: nat)
    ensures BitsOf(0, k) == ZeroBits(k)
  {
    if k > 0 {
      ZeroByteBits(k - 1);
    }
  }

  lemma {:induction false} PowerBits(k: nat)
    ensures BitsOf(Pow2(k), k + 1) == [true] + ZeroBits(k)
  {
    if k == 0 {
      assert BitsOf(1, 1) == BitsOf(0, 0) + [true];
    } else {
      PowerBits(k - 1);
      assert BitsOf(Pow2(k), k + 1) == BitsOf(Pow2(k - 1), k) + [false];
    }
  }

  lemma {:induction false} AppendBitsValue(b: Bits, x: nat, k: nat)
    requires x < Pow2(k)
    ensures NatOf(b + BitsOf(x, k)) == Pow2(k) * NatOf(b) + x
    decreases k
  {
    var all := b + BitsOf(x, k);
    if k == 0 {
      assert all == b;
    } else {
      assert all[..|all| - 1] == b + BitsOf(x / 2, k - 1);
      AppendBitsValue(b, x / 2, k - 1);
      DoubleProduct(Pow2(k - 1), NatOf(b));
    }
  }

  lemma DoubleProduct(p: nat, n: nat)
    ensures 2 * (p * n) == (2 * p) * n
  {
  }

  /** Reading big-endian bytes and reading their bits give the same number. */
  lemma {:induction false} BigEndianValue(s: seq<Byte>)
    ensures NatOf(ToBits(s)) == FromBigEndian(s)
  {
    if s != [] {
      BigEndianValue(s[..|s| - 1]);
      Pow2Of8();
      AppendBitsValue(ToBits(s[..|s| - 1]), s[|s| - 1], 8);
    }
  }

  lemma {:induction false} BitsOfNat(b: Bits)
    ensures BitsOf(NatOf(b), |b|) == b
  {
    if b != [] {
      BitsOfNat(b[..|b| - 1]);
    }
  }

  lemma {:induction false} NatOfBits(n: nat, k: nat)
    requires n < Pow2(k)
    ensures NatOf(BitsOf(n, k)) == n
    decreases k
  {
    if k > 0 {
      NatOfBits(n / 2, k - 1);
      assert BitsOf(n, k)[..k - 1] == BitsOf(n / 2, k - 1);
    }
  }
}
