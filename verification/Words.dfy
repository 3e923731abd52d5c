// The `u64` operations of the Rust code, on integers: bitwise operators, shifts,
// rotation and wrapping addition, each tied to what it does to the 64 bits.
module Words {
  import opened BitStrings
  import opened Bytes

  function Bit(b: bool): nat { if b then 1 else 0 }

  function XorBits(a: nat, b: nat, k: nat): (r: nat)
    ensures r < Pow2(k)
  {
    if k == 0 then 0 else 2 * XorBits(a / 2, b / 2, k - 1) + Bit(a % 2 != b % 2)
  }

  function AndBits(a: nat, b: nat, k: nat): (r: nat)
    ensures r < Pow2(k)
  {
    if k == 0 then 0 else 2 * AndBits(a / 2, b / 2, k - 1) + Bit(a % 2 == 1 && b % 2 == 1)
  }

  function OrBits(a: nat, b: nat, k: nat): (r: nat)
    ensures r < Pow2(k)
  {
    if k == 0 then 0 else 2 * OrBits(a / 2, b / 2, k - 1) + Bit(a % 2 == 1 || b % 2 == 1)
  }

  function NotBits(a: nat, k: nat): (r: nat)
    ensures r < Pow2(k)
  {
    if k == 0 then 0 else 2 * NotBits(a / 2, k - 1) + Bit(a % 2 == 0)
  }

  function Xor(a: U64, b: U64): U64 { Pow2Of64(); XorBits(a, b, 64) }

  function And(a: U64, b: U64): U64 { Pow2Of64(); AndBits(a, b, 64) }

  function Or(a: U64, b: U64): U64 { Pow2Of64(); OrBits(a, b, 64) }

  function Not(a: U64): U64 { Pow2Of64(); NotBits(a, 64) }

  lemma {:induction false} HalvedSmaller(n: nat, j: nat)
    ensures Halved(n, j) <= n
    decreases j
  {
    if j > 0 {
      HalvedSmaller(n / 2, j - 1);
    }
  }

  /** `a >> n`. */
  function Shr(a: U64, n: nat): U64
    requires n < 64
  {
    HalvedSmaller(a, n);
    Halved(a, n)
  }

  /** `a << n`. */
  function Shl(a: U64, n: nat): U64
    requires n < 64
  {
    a * Pow2(n) % (U64_MAX + 1)
  }

  /** `a.rotate_right(n)`: the low `n` bits move to the front. */
  function RotateRight(a: U64, n: nat): U64
    requires n < 64
  {
    Pow2Of64();
    var b := BitsOf(a, 64);
    NatOf(b[64 - n..] + b[..64 - n])
  }

  function WrappingAdd(a: U64, b: U64): U64 {
    if a + b <= U64_MAX then a + b else a + b - (U64_MAX + 1)
  }

  lemma WrapIsModulo(a: U64, b: U64, p: nat)
    requires p == U64_MAX + 1
    ensures WrappingAdd(a, b) == (a + b) % p
  {
    DivisionUnique(a + b, p, if a + b <= U64_MAX then 0 else 1, WrappingAdd(a, b));
  }

  function SaturatingAdd(a: nat, b: nat): U64 {
    if a + b > U64_MAX then U64_MAX else a + b
  }

  // ---- What the operators do to numbers -------------------------------------

  lemma {:induction false} OrDisjoint(a: nat, b: nat, j: nat, k: nat)
    requires a < Pow2(j) && b % Pow2(j) == 0
    requires a + b < Pow2(k)
    ensures OrBits(a, b, k) == a + b
    decreases k
  {
    if k == 0 {
    } else if j == 0 {
      OrZero(b, k);
    } else {
      HalveModulo(b, Pow2(j - 1), Pow2(j));
      OrDisjoint(a / 2, b / 2, j - 1, k - 1);
    }
  }

  lemma {:induction false} OrZero(b: nat, k: nat)
    requires b < Pow2(k)
    ensures OrBits(0, b, k) == b
    decreases k
  {
    if k > 0 {
      OrZero(b / 2, k - 1);
    }
  }

  /** Masking with `2^j - 1` is reduction modulo `2^j`. */
  lemma {:induction false} AndMask(a: nat, m: nat, j: nat, k: nat)
    requires a < Pow2(k) && m + 1 == Pow2(j)
    ensures AndBits(a, m, k) == a % Pow2(j)
    decreases k
  {
    if k == 0 {
      DivisionUnique(a, Pow2(j), 0, 0);
    } else if j == 0 {
      AndZero(a, k);
      DivisionUnique(a, 1, a, 0);
    } else {
      AndMaskStep(a, m, j, k);
      AndMask(a / 2, m / 2, j - 1, k - 1);
    }
  }

  lemma AndMaskStep(a: nat, m: nat, j: nat, k: nat)
    requires m + 1 == Pow2(j) && j > 0 && k > 0
    ensures m / 2 + 1 == Pow2(j - 1)
    ensures AndBits(a, m, k) == 2 * AndBits(a / 2, m / 2, k - 1) + a % 2
    ensures a % Pow2(j) == 2 * (a / 2 % Pow2(j - 1)) + a % 2
  {
    HalveSum(m, Pow2(j - 1) - 1, 1);
    HalveModulo(a, Pow2(j - 1), Pow2(j));
    Recombine(a % Pow2(j));
  }

  lemma Recombine(r: nat)
    ensures r == 2 * (r / 2) + r % 2
  {
  }

  lemma {:induction false} AndZero(a: nat, k: nat)
    ensures AndBits(a, 0, k) == 0
    decreases k
  {
    if k > 0 {
      AndZero(a / 2, k - 1);
    }
  }

  /** Masking with the complement keeps exactly what masking drops. */
  lemma {:induction false} AndComplement(a: nat, m: nat, k: nat)
    requires a < Pow2(k)
    ensures AndBits(a, NotBits(m, k), k) == a - AndBits(a, m, k)
    decreases k
  {
    if k > 0 {
      AndComplement(a / 2, m / 2, k - 1);
    }
  }

  // ---- What the operators do to bits ----------------------------------------

  lemma {:induction false} XorBitwise(a: nat, b: nat, k: nat, i: nat)
    requires i < k
    ensures BitsOf(XorBits(a, b, k), k)[i] == (BitsOf(a, k)[i] != BitsOf(b, k)[i])
    decreases k
  {
    if i < k - 1 {
      XorBitwise(a / 2, b / 2, k - 1, i);
    }
  }

  lemma {:induction false} AndBitwise(a: nat, b: nat, k: nat, i: nat)
    requires i < k
    ensures BitsOf(AndBits(a, b, k), k)[i] == (BitsOf(a, k)[i] && BitsOf(b, k)[i])
    decreases k
  {
    if i < k - 1 {
      AndBitwise(a / 2, b / 2, k - 1, i);
    }
  }

  lemma {:induction false} NotBitwise(a: nat, k: nat, i: nat)
    requires i < k
    ensures BitsOf(NotBits(a, k), k)[i] == !BitsOf(a, k)[i]
    decreases k
  {
    if i < k - 1 {
      NotBitwise(a / 2, k - 1, i);
    }
  }

  lemma {:induction false} HalvedTwice(n: nat, i: nat, j: nat)
    ensures Halved(Halved(n, i), j) == Halved(n, i + j)
    decreases i
  {
    if i > 0 {
      HalvedTwice(n / 2, i - 1, j);
    }
  }

  lemma {:induction false} HalvedToZero(n: nat, k: nat)
    requires n < Pow2(k)
    ensures Halved(n, k) == 0
    decreases k
  {
    if k > 0 {
      HalvedToZero(n / 2, k - 1);
    }
  }

  /** A right shift drops the last bits and puts zeros in front. */
  lemma ShiftedBits(n: nat, j: nat, k: nat)
    requires n < Pow2(k + j)
    ensures BitsOf(Halved(n, j), j + k) == ZeroBits(j) + BitsOf(n, k + j)[..k]
  {
    var h := Halved(n, j);
    SplitBits(n, k, j);
    SplitBits(h, j, k);
    HalvedTwice(n, j, k);
    HalvedToZero(n, k + j);
    ZeroByteBits(j);
  }
}
