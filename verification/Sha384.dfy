// `sha384` of crates/hyper-virtio/src/hash.rs: byte buffers, 64-bit integers, an
// in-place 80-word schedule and eight rotating variables. Its result, read as
// bits, is the digest `Fips180` defines for the bits of its argument.
module Sha384 {
  import opened BitStrings
  import opened Bytes
  import opened Words
  import F = Fips180

  // ---- Padding -------------------------------------------------------------

  /** The number of zero bytes between the byte 0x80 and the length. */
  function ZerosNeeded(n: nat): (z: nat)
    ensures z < 128 && (n + 1 + z) % 128 == 112
  {
    (111 - n) % 128
  }

  lemma ZerosNeededIsLeast(n: nat, zeros: nat)
    requires zeros <= ZerosNeeded(n) && (n + 1 + zeros) % 128 == 112
    ensures zeros == ZerosNeeded(n)
  {
  }

  lemma ZeroBitsNeeded(n: nat)
    ensures F.ZeroCount(8 * n) == 8 * ZerosNeeded(n) + 7
  {
  }

  function PaddedBytes(bytes: seq<Byte>): seq<Byte> {
    bytes + [0x80] + Zeros(ZerosNeeded(|bytes|)) + BigEndian(|bytes| * 8, 16)
  }

  method Pad(bytes: seq<Byte>) returns (msg: seq<Byte>)
    ensures msg == PaddedBytes(bytes)
  {
    var bitLen := |bytes| * 8;
    msg := bytes + [0x80];
    ghost var zeros: nat := 0;
    while |msg| % 128 != 112
      invariant |msg| == |bytes| + 1 + zeros
      invariant msg == bytes + [0x80] + Zeros(zeros)
      invariant zeros <= ZerosNeeded(|bytes|)
      decreases ZerosNeeded(|bytes|) - zeros
    {
      msg := msg + [0];
      zeros := zeros + 1;
      assert Zeros(zeros) == Zeros(zeros - 1) + [0];
    }
    ZerosNeededIsLeast(|bytes|, zeros);
    msg := msg + BigEndian(bitLen, 16);
  }

  lemma PaddedBytesLength(bytes: seq<Byte>)
    ensures |PaddedBytes(bytes)| % 128 == 0
    ensures |bytes| + 17 <= |PaddedBytes(bytes)| < |bytes| + 17 + 128
  {
    var z := ZerosNeeded(|bytes|);
    AddSixteen(|bytes| + 1 + z);
  }

  lemma AddSixteen(n: nat)
    requires n % 128 == 112
    ensures (n + 16) % 128 == 0
  {
  }

  lemma MarkerBits()
    ensures ToBits([0x80]) == [true] + ZeroBits(7)
  {
    assert [0x80][..0] == [];
    Pow2Of7();
    PowerBits(7);
  }

  lemma Pow2Of7()
    ensures Pow2(7) == 0x80
  {
    Pow2Sum(4, 3);
  }

  lemma ZeroBitsSum(i: nat, j: nat, k: nat)
    requires k == i + j
    ensures ZeroBits(i) + ZeroBits(j) == ZeroBits(k)
  {
  }

  lemma Regroup(m: Bits, one: Bits, z7: Bits, zeros: Bits, all: Bits, len: Bits)
    requires z7 + zeros == all
    ensures m + (one + z7) + zeros + len == m + one + all + len
  {
    assert m + (one + z7) + zeros == m + one + (z7 + zeros);
  }

  lemma ToBitsOfFour(a: seq<Byte>, b: seq<Byte>, c: seq<Byte>, d: seq<Byte>)
    ensures ToBits(a + b + c + d) == ToBits(a) + ToBits(b) + ToBits(c) + ToBits(d)
  {
    ToBitsConcat(a, b);
    ToBitsConcat(a + b, c);
    ToBitsConcat(a + b + c, d);
  }

  /** The byte padding is the bit padding of section 5.1.2. */
  lemma PaddingBits(bytes: seq<Byte>)
    ensures ToBits(PaddedBytes(bytes)) == F.Padded(ToBits(bytes))
  {
    var m, n, z := ToBits(bytes), |bytes|, ZerosNeeded(|bytes|);
    var k := F.ZeroCount(8 * n);
    ToBitsOfFour(bytes, [0x80], Zeros(z), BigEndian(n * 8, 16));
    BigEndianBits(n * 8, 16);
    ZeroBytesBits(z);
    MarkerBits();
    ZeroBitsNeeded(n);
    ZeroBitsSum(7, 8 * z, k);
    Regroup(m, [true], ZeroBits(7), ZeroBits(8 * z), ZeroBits(k), BitsOf(8 * n, 128));
  }

  /** No two messages of legal length have the same padding. */
  lemma PaddingInjective(a: seq<Byte>, b: seq<Byte>)
    requires |a| * 8 < Pow(256, 16) && |b| * 8 < Pow(256, 16)
    requires PaddedBytes(a) == PaddedBytes(b)
    ensures a == b
  {
    hide BigEndian;
    hide FromBigEndian;
    var p := PaddedBytes(a);
    assert p[|p| - 16..] == BigEndian(|a| * 8, 16);
    assert PaddedBytes(b)[|p| - 16..] == BigEndian(|b| * 8, 16);
    BigEndianRoundTrip(|a| * 8, 16);
    BigEndianRoundTrip(|b| * 8, 16);
    assert p[..|a|] == a && PaddedBytes(b)[..|b|] == b;
  }

  // ---- Word operations refine word operations ------------------------------

  lemma XorWord(a: U64, b: U64)
    ensures F.WordOf(Xor(a, b)) == F.Xor(F.WordOf(a), F.WordOf(b))
  {
    forall i | 0 <= i < 64
      ensures F.WordOf(Xor(a, b))[i] == F.Xor(F.WordOf(a), F.WordOf(b))[i]
    {
      XorBitwise(a, b, 64, i);
    }
  }

  lemma AndWord(a: U64, b: U64)
    ensures F.WordOf(And(a, b)) == F.And(F.WordOf(a), F.WordOf(b))
  {
    forall i | 0 <= i < 64
      ensures F.WordOf(And(a, b))[i] == F.And(F.WordOf(a), F.WordOf(b))[i]
    {
      AndBitwise(a, b, 64, i);
    }
  }

  lemma NotWord(a: U64)
    ensures F.WordOf(Not(a)) == F.Not(F.WordOf(a))
  {
    forall i | 0 <= i < 64
      ensures F.WordOf(Not(a))[i] == F.Not(F.WordOf(a))[i]
    {
      NotBitwise(a, 64, i);
    }
  }

  lemma PlusBits(a: nat, b: nat, s: nat, k: nat)
    requires a < Pow2(k) && b < Pow2(k) && s == (a + b) % Pow2(k)
    ensures BitsOf(s, k) == BitsOf(NatOf(BitsOf(a, k)) + NatOf(BitsOf(b, k)), k)
  {
    NatOfBits(a, k);
    NatOfBits(b, k);
    LowBits(a + b, k);
  }

  lemma PlusWord(a: U64, b: U64)
    ensures F.WordOf(WrappingAdd(a, b)) == F.Plus(F.WordOf(a), F.WordOf(b))
  {
    Pow2Of64();
    WrapIsModulo(a, b, Pow2(64));
    PlusBits(a, b, WrappingAdd(a, b), 64);
  }

  lemma ShrWord(a: U64, n: nat)
    requires n < 64
    ensures F.WordOf(Shr(a, n)) == F.SHR(n, F.WordOf(a))
  {
    Pow2Of64();
    ShiftedBits(a, n, 64 - n);
  }

  lemma RotateWord(a: U64, n: nat)
    requires 0 < n < 64
    ensures F.WordOf(RotateRight(a, n)) == F.ROTR(n, F.WordOf(a))
  {
    var b := F.WordOf(a);
    BitsOfNat(b[64 - n..] + b[..64 - n]);
    RotatedWord(b, n);
  }

  lemma RotatedWord(b: F.Word, n: nat)
    requires 0 < n < 64
    ensures b[64 - n..] + b[..64 - n] == F.ROTR(n, b)
  {
    var x, y := F.SHR(n, b), F.SHL(64 - n, b);
    assert x == ZeroBits(n) + b[..64 - n] && y == b[64 - n..] + ZeroBits(64 - n);
  }

  function SmallS0(x: U64): U64 { Xor(Xor(RotateRight(x, 1), RotateRight(x, 8)), Shr(x, 7)) }

  function SmallS1(x: U64): U64 { Xor(Xor(RotateRight(x, 19), RotateRight(x, 61)), Shr(x, 6)) }

  function BigS0(x: U64): U64 { Xor(Xor(RotateRight(x, 28), RotateRight(x, 34)), RotateRight(x, 39)) }

  function BigS1(x: U64): U64 { Xor(Xor(RotateRight(x, 14), RotateRight(x, 18)), RotateRight(x, 41)) }

  function Choose(e: U64, f: U64, g: U64): U64 { Xor(And(e, f), And(Not(e), g)) }

  function Majority(a: U64, b: U64, c: U64): U64 { Xor(Xor(And(a, b), And(a, c)), And(b, c)) }

  lemma SmallSigmas(x: U64)
    ensures F.WordOf(SmallS0(x)) == F.SmallSigma0(F.WordOf(x))
    ensures F.WordOf(SmallS1(x)) == F.SmallSigma1(F.WordOf(x))
  {
    RotateWord(x, 1); RotateWord(x, 8); ShrWord(x, 7);
    XorWord(RotateRight(x, 1), RotateRight(x, 8));
    XorWord(Xor(RotateRight(x, 1), RotateRight(x, 8)), Shr(x, 7));
    RotateWord(x, 19); RotateWord(x, 61); ShrWord(x, 6);
    XorWord(RotateRight(x, 19), RotateRight(x, 61));
    XorWord(Xor(RotateRight(x, 19), RotateRight(x, 61)), Shr(x, 6));
  }

  lemma BigSigmas(x: U64)
    ensures F.WordOf(BigS0(x)) == F.BigSigma0(F.WordOf(x))
    ensures F.WordOf(BigS1(x)) == F.BigSigma1(F.WordOf(x))
  {
    RotateWord(x, 28); RotateWord(x, 34); RotateWord(x, 39);
    XorWord(RotateRight(x, 28), RotateRight(x, 34));
    XorWord(Xor(RotateRight(x, 28), RotateRight(x, 34)), RotateRight(x, 39));
    RotateWord(x, 14); RotateWord(x, 18); RotateWord(x, 41);
    XorWord(RotateRight(x, 14), RotateRight(x, 18));
    XorWord(Xor(RotateRight(x, 14), RotateRight(x, 18)), RotateRight(x, 41));
  }

  lemma ChooseWord(e: U64, f: U64, g: U64)
    ensures F.WordOf(Choose(e, f, g)) == F.Ch(F.WordOf(e), F.WordOf(f), F.WordOf(g))
  {
    AndWord(e, f);
    NotWord(e);
    AndWord(Not(e), g);
    XorWord(And(e, f), And(Not(e), g));
  }

  lemma MajorityWord(a: U64, b: U64, c: U64)
    ensures F.WordOf(Majority(a, b, c)) == F.Maj(F.WordOf(a), F.WordOf(b), F.WordOf(c))
  {
    AndWord(a, b);
    AndWord(a, c);
    AndWord(b, c);
    XorWord(And(a, b), And(a, c));
    XorWord(Xor(And(a, b), And(a, c)), And(b, c));
  }

  // ---- One block -----------------------------------------------------------

  function Sum4(a: U64, b: U64, c: U64, d: U64): U64 {
    WrappingAdd(WrappingAdd(WrappingAdd(a, b), c), d)
  }

  lemma Sum4Reversed(a: U64, b: U64, c: U64, d: U64)
    ensures Sum4(a, b, c, d) == Sum4(d, c, b, a)
  {
  }

  lemma Sum4Word(a: U64, b: U64, c: U64, d: U64)
    ensures F.WordOf(Sum4(a, b, c, d))
         == F.Plus(F.Plus(F.Plus(F.WordOf(a), F.WordOf(b)), F.WordOf(c)), F.WordOf(d))
  {
    PlusWord(a, b);
    PlusWord(WrappingAdd(a, b), c);
    PlusWord(WrappingAdd(WrappingAdd(a, b), c), d);
  }

  /** `u64::from_be_bytes`. */
  function LoadWord(s: seq<Byte>): (w: U64)
    requires |s| == 8
    ensures F.WordOf(w) == ToBits(s)
  {
    BigEndianValue(s);
    Pow2Of64();
    BitsOfNat(ToBits(s));
    FromBigEndian(s)
  }

  lemma LoadWordAt(block: seq<Byte>, t: nat)
    requires |block| == 128 && t < 16
    ensures F.WordOf(LoadWord(block[8 * t..8 * t + 8])) == F.W(ToBits(block), t)
  {
    ToBitsSlice(block, 8 * t, 8 * t + 8);
    assert 8 * (8 * t) == 64 * t && 8 * (8 * t + 8) == 64 * t + 64;
  }

  lemma ScheduleStep(bits: Bits, t: nat, w2: U64, w7: U64, w15: U64, w16: U64)
    requires |bits| == 1024 && 16 <= t < 80
    requires F.WordOf(w2) == F.W(bits, t - 2) && F.WordOf(w7) == F.W(bits, t - 7)
    requires F.WordOf(w15) == F.W(bits, t - 15) && F.WordOf(w16) == F.W(bits, t - 16)
    ensures F.WordOf(Sum4(w16, SmallS0(w15), w7, SmallS1(w2))) == F.W(bits, t)
  {
    SmallSigmas(w2);
    SmallSigmas(w15);
    Sum4Reversed(w16, SmallS0(w15), w7, SmallS1(w2));
    Sum4Word(SmallS1(w2), w7, SmallS0(w15), w16);
  }

  ghost predicate Scheduled(w: seq<U64>, bits: Bits, n: nat)
    requires |bits| == 1024 && n <= 80
  {
    n <= |w| && forall t | 0 <= t < n :: F.WordOf(w[t]) == F.W(bits, t)
  }

  lemma ScheduledNext(w: seq<U64>, bits: Bits, n: nat, x: U64)
    requires |bits| == 1024 && n < 80 && n < |w|
    requires Scheduled(w, bits, n) && F.WordOf(x) == F.W(bits, n)
    ensures Scheduled(w[n := x], bits, n + 1)
  {
  }

  function NextScheduleWord(w: seq<U64>, i: nat): U64
    requires 16 <= i <= |w|
  {
    Sum4(w[i - 16], SmallS0(w[i - 15]), w[i - 7], SmallS1(w[i - 2]))
  }

  lemma ScheduledStep(w: seq<U64>, bits: Bits, n: nat)
    requires |bits| == 1024 && 16 <= n < 80 && n < |w| && Scheduled(w, bits, n)
    ensures Scheduled(w[n := NextScheduleWord(w, n)], bits, n + 1)
  {
    ScheduleStep(bits, n, w[n - 2], w[n - 7], w[n - 15], w[n - 16]);
    ScheduledNext(w, bits, n, NextScheduleWord(w, n));
  }

  method Schedule(block: seq<Byte>) returns (w: array<U64>)
    requires |block| == 128
    ensures fresh(w) && w.Length == 80
    ensures Scheduled(w[..], ToBits(block), 80)
  {
    w := new U64[80](_ => 0);
    ghost var bits := ToBits(block);
    for i := 0 to 16
      invariant Scheduled(w[..], bits, i)
    {
      LoadWordAt(block, i);
      ScheduledNext(w[..], bits, i, LoadWord(block[8 * i..8 * i + 8]));
      ghost var next := w[..][i := LoadWord(block[8 * i..8 * i + 8])];
      w[i] := LoadWord(block[8 * i..8 * i + 8]);
      assert w[..] == next;
    }
    for i := 16 to 80
      invariant Scheduled(w[..], bits, i)
    {
      ScheduledStep(w[..], bits, i);
      ghost var next := w[..][i := NextScheduleWord(w[..], i)];
      var s0 := SmallS0(w[i - 15]);
      var s1 := SmallS1(w[i - 2]);
      w[i] := Sum4(w[i - 16], s0, w[i - 7], s1);
      assert w[..] == next;
    }
  }

  function EightOf(a: U64, b: U64, c: U64, d: U64, e: U64, f: U64, g: U64, h: U64): F.Eight {
    F.Eight(F.WordOf(a), F.WordOf(b), F.WordOf(c), F.WordOf(d),
            F.WordOf(e), F.WordOf(f), F.WordOf(g), F.WordOf(h))
  }

  function HashWords(h: seq<U64>): F.Eight
    requires |h| == 8
  {
    EightOf(h[0], h[1], h[2], h[3], h[4], h[5], h[6], h[7])
  }

  lemma T1Word(e: U64, f: U64, g: U64, hh: U64, k: U64, w: U64, v: F.Eight)
    requires v.e == F.WordOf(e) && v.f == F.WordOf(f) && v.g == F.WordOf(g) && v.h == F.WordOf(hh)
    ensures F.WordOf(WrappingAdd(Sum4(hh, BigS1(e), Choose(e, f, g), k), w)) == F.T1(v, F.WordOf(k), F.WordOf(w))
  {
    BigSigmas(e);
    ChooseWord(e, f, g);
    Sum4Word(hh, BigS1(e), Choose(e, f, g), k);
    PlusWord(Sum4(hh, BigS1(e), Choose(e, f, g), k), w);
  }

  lemma T2Word(a: U64, b: U64, c: U64, v: F.Eight)
    requires v.a == F.WordOf(a) && v.b == F.WordOf(b) && v.c == F.WordOf(c)
    ensures F.WordOf(WrappingAdd(BigS0(a), Majority(a, b, c))) == F.T2(v)
  {
    BigSigmas(a);
    MajorityWord(a, b, c);
    PlusWord(BigS0(a), Majority(a, b, c));
  }

  function T1Of(e: U64, f: U64, g: U64, hh: U64, k: U64, w: U64): U64 {
    WrappingAdd(Sum4(hh, BigS1(e), Choose(e, f, g), k), w)
  }

  function T2Of(a: U64, b: U64, c: U64): U64 {
    WrappingAdd(BigS0(a), Majority(a, b, c))
  }

  lemma RoundWords(a: U64, b: U64, c: U64, d: U64, e: U64, f: U64, g: U64, hh: U64, k: U64, w: U64)
    ensures EightOf(WrappingAdd(T1Of(e, f, g, hh, k, w), T2Of(a, b, c)), a, b, c,
                    WrappingAdd(d, T1Of(e, f, g, hh, k, w)), e, f, g)
         == F.Round(EightOf(a, b, c, d, e, f, g, hh), F.WordOf(k), F.WordOf(w))
  {
    var v := EightOf(a, b, c, d, e, f, g, hh);
    T1Word(e, f, g, hh, k, w, v);
    T2Word(a, b, c, v);
    PlusWord(T1Of(e, f, g, hh, k, w), T2Of(a, b, c));
    PlusWord(d, T1Of(e, f, g, hh, k, w));
  }

  lemma RoundsNext(start: F.Eight, block: Bits, i: nat, w: U64)
    requires |block| == 1024 && i < 80 && F.WordOf(w) == F.W(block, i)
    ensures F.Rounds(start, F.MessageSchedule(block), i + 1)
         == F.Round(F.Rounds(start, F.MessageSchedule(block), i), F.WordOf(RoundConstant(i)), F.WordOf(w))
  {
  }

  function RoundConstant(i: nat): U64
    requires i < 80
  {
    F.K_ROWS[i / 10][i % 10]
  }

  method WorkingVariables(h: array<U64>, w: array<U64>, ghost block: Bits)
    returns (a: U64, b: U64, c: U64, d: U64, e: U64, f: U64, g: U64, hh: U64)
    requires h.Length == 8 && |block| == 1024 && Scheduled(w[..], block, 80)
    ensures EightOf(a, b, c, d, e, f, g, hh) == F.Rounds(HashWords(h[..]), F.MessageSchedule(block), 80)
  {
    ghost var start := HashWords(h[..]);
    a, b, c, d := h[0], h[1], h[2], h[3];
    e, f, g, hh := h[4], h[5], h[6], h[7];
    for i := 0 to 80
      invariant EightOf(a, b, c, d, e, f, g, hh) == F.Rounds(start, F.MessageSchedule(block), i)
    {
      var k, word := RoundConstant(i), w[..][i];
      RoundWords(a, b, c, d, e, f, g, hh, k, word);
      RoundsNext(start, block, i, word);
      var t1, t2 := T1Of(e, f, g, hh, k, word), T2Of(a, b, c);
      hh := g;
      g := f;
      f := e;
      e := WrappingAdd(d, t1);
      d := c;
      c := b;
      b := a;
      a := WrappingAdd(t1, t2);
    }
  }

  method Compress(h: array<U64>, block: seq<Byte>)
    requires h.Length == 8 && |block| == 128
    modifies h
    ensures HashWords(h[..]) == F.Compressed(HashWords(old(h[..])), ToBits(block))
  {
    var w := Schedule(block);
    var a, b, c, d, e, f, g, hh := WorkingVariables(h, w, ToBits(block));
    PlusEachWords(h[..], a, b, c, d, e, f, g, hh);
    AddInto(h, a, b, c, d, e, f, g, hh);
  }

  /** Add the working variables to the hash value, word by word. */
  method AddInto(h: array<U64>, a: U64, b: U64, c: U64, d: U64, e: U64, f: U64, g: U64, hh: U64)
    requires h.Length == 8
    modifies h
    ensures h[..] == Summed(old(h[..]), a, b, c, d, e, f, g, hh)
  {
    h[0] := WrappingAdd(h[0], a);
    h[1] := WrappingAdd(h[1], b);
    h[2] := WrappingAdd(h[2], c);
    h[3] := WrappingAdd(h[3], d);
    h[4] := WrappingAdd(h[4], e);
    h[5] := WrappingAdd(h[5], f);
    h[6] := WrappingAdd(h[6], g);
    h[7] := WrappingAdd(h[7], hh);
  }

  function Summed(h: seq<U64>, a: U64, b: U64, c: U64, d: U64, e: U64, f: U64, g: U64, hh: U64): (s: seq<U64>)
    requires |h| == 8
    ensures |s| == 8
  {
    [WrappingAdd(h[0], a), WrappingAdd(h[1], b), WrappingAdd(h[2], c), WrappingAdd(h[3], d),
     WrappingAdd(h[4], e), WrappingAdd(h[5], f), WrappingAdd(h[6], g), WrappingAdd(h[7], hh)]
  }

  lemma PlusEachWords(h: seq<U64>, a: U64, b: U64, c: U64, d: U64, e: U64, f: U64, g: U64, hh: U64)
    requires |h| == 8
    ensures HashWords(Summed(h, a, b, c, d, e, f, g, hh))
         == F.PlusEach(HashWords(h), EightOf(a, b, c, d, e, f, g, hh))
  {
    PlusWord(h[0], a); PlusWord(h[1], b); PlusWord(h[2], c); PlusWord(h[3], d);
    PlusWord(h[4], e); PlusWord(h[5], f); PlusWord(h[6], g); PlusWord(h[7], hh);
  }

  // ---- The digest ----------------------------------------------------------

  lemma BlockBits(msg: seq<Byte>, n: nat)
    requires 128 * n + 128 <= |msg|
    ensures ToBits(msg[128 * n..128 * n + 128]) == F.Block(ToBits(msg), n)
  {
    ToBitsSlice(msg, 128 * n, 128 * n + 128);
    assert 8 * (128 * n) == 1024 * n && 8 * (128 * n + 128) == 1024 * n + 1024;
  }

  lemma OutputWord(out: seq<Byte>, h: seq<U64>, i: nat)
    requires |h| == 8 && i < 6
    requires ToBits(out) == F.Leading(HashWords(h), i)
    ensures ToBits(out + BigEndian(h[i], 8)) == F.Leading(HashWords(h), i + 1)
  {
    ToBitsConcat(out, BigEndian(h[i], 8));
    BigEndianBits(h[i], 8);
  }

  /** The number of blocks of the padded message. */
  function Blocks(bytes: seq<Byte>): (n: nat)
    ensures 128 * n == |PaddedBytes(bytes)|
    ensures 1024 * n == |F.Padded(ToBits(bytes))| && |F.Padded(ToBits(bytes))| / 1024 == n
  {
    PaddingBits(bytes);
    PaddedBytesLength(bytes);
    |PaddedBytes(bytes)| / 128
  }

  method HashBlocks(bytes: seq<Byte>) returns (h: array<U64>)
    ensures fresh(h) && h.Length == 8
    ensures HashWords(h[..]) == F.HashOf(F.Padded(ToBits(bytes)), Blocks(bytes))
  {
    h := new U64[8](i requires 0 <= i < 8 => F.H0[i]);
    var msg := Pad(bytes);
    PaddingBits(bytes);
    ghost var padded := F.Padded(ToBits(bytes));
    assert h[..] == F.H0;
    for n := 0 to Blocks(bytes)
      invariant HashWords(h[..]) == F.HashOf(padded, n)
    {
      BlockBits(msg, n);
      Compress(h, msg[128 * n..128 * n + 128]);
    }
  }

  /** The first `words` words of the hash value, big-endian. */
  method Output(h: array<U64>, words: nat) returns (out: seq<Byte>)
    requires h.Length == 8 && words <= 6
    ensures |out| == 8 * words
    ensures ToBits(out) == F.Leading(HashWords(h[..]), words)
  {
    out := [];
    for i := 0 to words
      invariant |out| == 8 * i
      invariant ToBits(out) == F.Leading(HashWords(h[..]), i)
    {
      OutputWord(out, h[..], i);
      out := out + BigEndian(h[i], 8);
    }
  }

  /** `sha384`: on every byte string, the FIPS 180-4 digest of its bits. */
  method Sha384(bytes: seq<Byte>) returns (out: seq<Byte>)
    ensures |out| == 48
    ensures ToBits(out) == F.Digest(ToBits(bytes))
  {
    var h := HashBlocks(bytes);
    ghost var n := Blocks(bytes);
    out := Output(h, 6);
  }
}
