// SHA-384 as FIPS 180-4 writes it: a function from bit strings to bit strings,
// whose words are strings of 64 bits. Nothing here mentions bytes, integers in
// registers or in-place schedules; `Sha384` proves that the byte- and
// integer-oriented loops compute exactly this.
module Fips180 {
  import opened BitStrings
  import opened Bytes

  /** A word: 64 bits, most significant first (section 2.1). */
  type Word = b: Bits | |b| == 64 witness ZeroBits(64)

  datatype Eight = Eight(a: Word, b: Word, c: Word, d: Word, e: Word, f: Word, g: Word, h: Word)

  // ---- Sections 4.2.3 and 5.3.4: constants, in hexadecimal ------------------

  /** The eighty round constants, ten to a row. */
  const K_ROWS: seq<seq<U64>> := [
    [0x428a2f98d728ae22, 0x7137449123ef65cd, 0xb5c0fbcfec4d3b2f, 0xe9b5dba58189dbbc, 0x3956c25bf348b538,
     0x59f111f1b605d019, 0x923f82a4af194f9b, 0xab1c5ed5da6d8118, 0xd807aa98a3030242, 0x12835b0145706fbe],
    [0x243185be4ee4b28c, 0x550c7dc3d5ffb4e2, 0x72be5d74f27b896f, 0x80deb1fe3b1696b1, 0x9bdc06a725c71235,
     0xc19bf174cf692694, 0xe49b69c19ef14ad2, 0xefbe4786384f25e3, 0x0fc19dc68b8cd5b5, 0x240ca1cc77ac9c65],
    [0x2de92c6f592b0275, 0x4a7484aa6ea6e483, 0x5cb0a9dcbd41fbd4, 0x76f988da831153b5, 0x983e5152ee66dfab,
     0xa831c66d2db43210, 0xb00327c898fb213f, 0xbf597fc7beef0ee4, 0xc6e00bf33da88fc2, 0xd5a79147930aa725],
    [0x06ca6351e003826f, 0x142929670a0e6e70, 0x27b70a8546d22ffc, 0x2e1b21385c26c926, 0x4d2c6dfc5ac42aed,
     0x53380d139d95b3df, 0x650a73548baf63de, 0x766a0abb3c77b2a8, 0x81c2c92e47edaee6, 0x92722c851482353b],
    [0xa2bfe8a14cf10364, 0xa81a664bbc423001, 0xc24b8b70d0f89791, 0xc76c51a30654be30, 0xd192e819d6ef5218,
     0xd69906245565a910, 0xf40e35855771202a, 0x106aa07032bbd1b8, 0x19a4c116b8d2d0c8, 0x1e376c085141ab53],
    [0x2748774cdf8eeb99, 0x34b0bcb5e19b48a8, 0x391c0cb3c5c95a63, 0x4ed8aa4ae3418acb, 0x5b9cca4f7763e373,
     0x682e6ff3d6b2b8a3, 0x748f82ee5defb2fc, 0x78a5636f43172f60, 0x84c87814a1f0ab72, 0x8cc702081a6439ec],
    [0x90befffa23631e28, 0xa4506cebde82bde9, 0xbef9a3f7b2c67915, 0xc67178f2e372532b, 0xca273eceea26619c,
     0xd186b8c721c0c207, 0xeada7dd6cde0eb1e, 0xf57d4f7fee6ed178, 0x06f067aa72176fba, 0x0a637dc5a2c898a6],
    [0x113f9804bef90dae, 0x1b710b35131c471b, 0x28db77f523047d84, 0x32caab7b40c72493, 0x3c9ebe0a15c9bebc,
     0x431d67c49c100d4c, 0x4cc5d4becb3e42b6, 0x597f299cfc657e2a, 0x5fcb6fab3ad6faec, 0x6c44198c4a475817]
  ]

  /** The first eighty primes, ten to a row. */
  const PRIME_ROWS: seq<seq<nat>> := [
    [2, 3, 5, 7, 11, 13, 17, 19, 23, 29],
    [31, 37, 41, 43, 47, 53, 59, 61, 67, 71],
    [73, 79, 83, 89, 97, 101, 103, 107, 109, 113],
    [127, 131, 137, 139, 149, 151, 157, 163, 167, 173],
    [179, 181, 191, 193, 197, 199, 211, 223, 227, 229],
    [233, 239, 241, 251, 257, 263, 269, 271, 277, 281],
    [283, 293, 307, 311, 313, 317, 331, 337, 347, 349],
    [353, 359, 367, 373, 379, 383, 389, 397, 401, 409]
  ]

  function K(t: nat): Word
    requires t < 80
  {
    WordOf(K_ROWS[t / 10][t % 10])
  }

  const H0: seq<U64> := [
    0xcbbb9d5dc1059ed8, 0x629a292a367cd507, 0x9159015a3070dd17, 0x152fecd8f70e5939,
    0x67332667ffc00b31, 0x8eb44a8768581511, 0xdb0c2e0d64f98fa7, 0x47b5481dbefa4fa4
  ]

  function InitialHash(): Eight {
    Eight(WordOf(H0[0]), WordOf(H0[1]), WordOf(H0[2]), WordOf(H0[3]),
          WordOf(H0[4]), WordOf(H0[5]), WordOf(H0[6]), WordOf(H0[7]))
  }

  // ---- Section 3: operations on words --------------------------------------

  function WordOf(n: nat): Word {
    BitsOf(n, 64)
  }

  function Xor(x: Word, y: Word): Word { seq(64, i requires 0 <= i < 64 => x[i] != y[i]) }

  function And(x: Word, y: Word): Word { seq(64, i requires 0 <= i < 64 => x[i] && y[i]) }

  function Or(x: Word, y: Word): Word { seq(64, i requires 0 <= i < 64 => x[i] || y[i]) }

  function Not(x: Word): Word { seq(64, i requires 0 <= i < 64 => !x[i]) }

  /** Addition modulo 2^64: a word keeps the low 64 bits of the sum. */
  function Plus(x: Word, y: Word): Word {
    WordOf(NatOf(x) + NatOf(y))
  }

  function SHR(n: nat, x: Word): Word
    requires n < 64
  {
    ZeroBits(n) + x[..64 - n]
  }

  function SHL(n: nat, x: Word): Word
    requires n < 64
  {
    x[n..] + ZeroBits(n)
  }

  function ROTR(n: nat, x: Word): Word
    requires 0 < n < 64
  {
    Or(SHR(n, x), SHL(64 - n, x))
  }

  // ---- Section 4.1.3: functions --------------------------------------------

  function Ch(x: Word, y: Word, z: Word): Word { Xor(And(x, y), And(Not(x), z)) }

  function Maj(x: Word, y: Word, z: Word): Word { Xor(Xor(And(x, y), And(x, z)), And(y, z)) }

  function BigSigma0(x: Word): Word { Xor(Xor(ROTR(28, x), ROTR(34, x)), ROTR(39, x)) }

  function BigSigma1(x: Word): Word { Xor(Xor(ROTR(14, x), ROTR(18, x)), ROTR(41, x)) }

  function SmallSigma0(x: Word): Word { Xor(Xor(ROTR(1, x), ROTR(8, x)), SHR(7, x)) }

  function SmallSigma1(x: Word): Word { Xor(Xor(ROTR(19, x), ROTR(61, x)), SHR(6, x)) }

  // ---- Section 5.1.2: padding ----------------------------------------------

  /** The number of zero bits: the least solution of l + 1 + k = 896 modulo 1024. */
  function ZeroCount(l: nat): (k: nat)
    ensures (l + 1 + k) % 1024 == 896
    ensures forall j: nat {:trigger (l + 1 + j) % 1024} | (l + 1 + j) % 1024 == 896 :: k <= j
  {
    (895 - l) % 1024
  }

  function Padded(m: Bits): Bits {
    m + [true] + ZeroBits(ZeroCount(|m|)) + BitsOf(|m|, 128)
  }

  // ---- Section 6.4.2: the hash computation ---------------------------------

  /** Word `t` of the message schedule of one 1024-bit block. */
  function W(block: Bits, t: nat): Word
    requires |block| == 1024 && t < 80
  {
    if t < 16 then
      block[64 * t..64 * t + 64]
    else
      Plus(Plus(Plus(SmallSigma1(W(block, t - 2)), W(block, t - 7)), SmallSigma0(W(block, t - 15))), W(block, t - 16))
  }

  function MessageSchedule(block: Bits): (ws: seq<Word>)
    requires |block| == 1024
    ensures |ws| == 80 && forall t | 0 <= t < 80 :: ws[t] == W(block, t)
  {
    seq(80, t requires 0 <= t < 80 => W(block, t))
  }

  function T1(v: Eight, k: Word, w: Word): Word {
    Plus(Plus(Plus(Plus(v.h, BigSigma1(v.e)), Ch(v.e, v.f, v.g)), k), w)
  }

  function T2(v: Eight): Word {
    Plus(BigSigma0(v.a), Maj(v.a, v.b, v.c))
  }

  function Round(v: Eight, k: Word, w: Word): Eight {
    Eight(Plus(T1(v, k, w), T2(v)), v.a, v.b, v.c, Plus(v.d, T1(v, k, w)), v.e, v.f, v.g)
  }

  /** The working variables after `t` rounds. */
  function Rounds(v: Eight, ws: seq<Word>, t: nat): Eight
    requires |ws| == 80 && t <= 80
  {
    if t == 0 then v else Round(Rounds(v, ws, t - 1), K(t - 1), ws[t - 1])
  }

  function PlusEach(x: Eight, y: Eight): Eight {
    Eight(Plus(x.a, y.a), Plus(x.b, y.b), Plus(x.c, y.c), Plus(x.d, y.d),
          Plus(x.e, y.e), Plus(x.f, y.f), Plus(x.g, y.g), Plus(x.h, y.h))
  }

  function Compressed(h: Eight, block: Bits): Eight
    requires |block| == 1024
  {
    PlusEach(h, Rounds(h, MessageSchedule(block), 80))
  }

  function Block(padded: Bits, i: nat): (b: Bits)
    requires 1024 * i + 1024 <= |padded|
    ensures |b| == 1024
  {
    padded[1024 * i..1024 * i + 1024]
  }

  /** The intermediate hash value after `n` blocks. */
  function HashOf(padded: Bits, n: nat): Eight
    requires 1024 * n <= |padded|
  {
    if n == 0 then InitialHash()
    else
      Compressed(HashOf(padded, n - 1), Block(padded, n - 1))
  }

  // ---- Section 6.5: the leftmost 384 bits ----------------------------------

  /** The first `n` words of a hash value. */
  function Leading(h: Eight, n: nat): Bits
    requires n <= 8
  {
    if n == 0 then [] else Leading(h, n - 1) + Nth(h, n - 1)
  }

  function Nth(h: Eight, i: nat): Word
    requires i < 8
  {
    match i
    case 0 => h.a
    case 1 => h.b
    case 2 => h.c
    case 3 => h.d
    case 4 => h.e
    case 5 => h.f
    case 6 => h.g
    case 7 => h.h
  }

  function Digest(message: Bits): Bits {
    var padded := Padded(message);
    Leading(HashOf(padded, |padded| / 1024), 6)
  }
}
