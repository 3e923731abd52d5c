// The two tables of hexadecimal constants are what sections 4.2.3 and 5.3.4 of
// FIPS 180-4 say they are: the first 64 bits of the fractional parts of the cube
// roots of the first eighty primes, and of the square roots of the ninth to the
// sixteenth.
module FipsConstants {
  import opened Bytes
  import opened Fips180

  const TWO64: nat := 0x1_0000_0000_0000_0000

  function Prime(t: nat): nat
    requires t < 80
  {
    PRIME_ROWS[t / 10][t % 10]
  }

  /** `n + c / 2^64` truncates the cube root of `p`. */
  predicate IsCubeRootFraction(c: U64, n: nat, p: nat) {
    var r := n * TWO64 + c;
    r * r * r <= p * TWO64 * TWO64 * TWO64 < (r + 1) * (r + 1) * (r + 1)
  }

  /** `n + c / 2^64` truncates the square root of `p`. */
  predicate IsSquareRootFraction(c: U64, n: nat, p: nat) {
    var r := n * TWO64 + c;
    r * r <= p * TWO64 * TWO64 < (r + 1) * (r + 1)
  }

  function FloorCubeRoot(p: nat): nat {
    if p < 8 then 1 else if p < 27 then 2 else if p < 64 then 3 else if p < 125 then 4
    else if p < 216 then 5 else if p < 343 then 6 else 7
  }

  predicate RowHolds(r: nat)
    requires r < 8
  {
    forall i | 0 <= i < 10 ::
      IsCubeRootFraction(K_ROWS[r][i], FloorCubeRoot(PRIME_ROWS[r][i]), PRIME_ROWS[r][i])
  }

  lemma Row0() ensures RowHolds(0) {}

  lemma Row1() ensures RowHolds(1) {}

  lemma Row2() ensures RowHolds(2) {}

  lemma Row3() ensures RowHolds(3) {}

  lemma Row4() ensures RowHolds(4) {}

  lemma Row5() ensures RowHolds(5) {}

  lemma Row6() ensures RowHolds(6) {}

  lemma Row7() ensures RowHolds(7) {}

  lemma RoundConstants(t: nat)
    requires t < 80
    ensures IsCubeRootFraction(K_ROWS[t / 10][t % 10], FloorCubeRoot(Prime(t)), Prime(t))
  {
    Row0(); Row1(); Row2(); Row3(); Row4(); Row5(); Row6(); Row7();
    assert RowHolds(t / 10);
  }

  lemma InitialValues()
    ensures IsSquareRootFraction(H0[0], 4, Prime(8)) && IsSquareRootFraction(H0[1], 5, Prime(9))
    ensures IsSquareRootFraction(H0[2], 5, Prime(10)) && IsSquareRootFraction(H0[3], 6, Prime(11))
    ensures IsSquareRootFraction(H0[4], 6, Prime(12)) && IsSquareRootFraction(H0[5], 6, Prime(13))
    ensures IsSquareRootFraction(H0[6], 6, Prime(14)) && IsSquareRootFraction(H0[7], 7, Prime(15))
  {
  }
}
