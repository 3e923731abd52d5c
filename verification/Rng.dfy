// crates/hyper-virtio/src/rng.rs: a buffered, counter-based generator. Whatever
// mix of reads is made, the bytes are consecutive bytes of one stream.
module Rng {
  import opened BitStrings
  import opened Bytes
  import opened DeviceTypes
  import opened Words
  import opened Wrappers

  /** A 48-byte digest; nothing else about it matters here. */
  type Sha = h: seq<Byte> -> seq<Byte> | forall x: seq<Byte> :: |h(x)| == 48
    ghost witness _ => Zeros(48)

  const BLOCK_LEN: nat := 48
  const REG_DATA: nat := 0x00
  const REG_SEED: nat := 0x08

  // ---- The stream ----------------------------------------------------------

  /** The generator's block as a function of seed and counter; `DrbgBlocks` is the real one. */
  type Blocks = f: (U64, U64) -> seq<Byte> | forall seed: U64, counter: U64 :: |f(seed, counter)| == 48
    ghost witness (_, _) => Zeros(48)

  /** The 16 bytes a block is the digest of. */
  function BlockInput(seed: U64, counter: U64): seq<Byte> {
    LittleEndian(seed, 8) + LittleEndian(counter, 8)
  }

  /** Sixteen bytes: the seed, then the counter, each as eight bytes with the least significant first. */
  lemma BlockInputMeans(seed: U64, counter: U64)
    ensures
      var b := BlockInput(seed, counter);
      |b| == 16 && FromLittleEndian(b[..8]) == seed && FromLittleEndian(b[8..]) == counter
  {
    hide FromLittleEndian;
    hide LittleEndian;
    Pow256Eight();
    LittleEndianRoundTrip(seed, 8);
    LittleEndianRoundTrip(counter, 8);
    assert BlockInput(seed, counter)[..8] == LittleEndian(seed, 8);
    assert BlockInput(seed, counter)[8..] == LittleEndian(counter, 8);
  }

  /** So different seeds or counters are digested from different bytes. */
  lemma BlockInputInjective(seed: U64, counter: U64, seed': U64, counter': U64)
    requires BlockInput(seed, counter) == BlockInput(seed', counter')
    ensures seed == seed' && counter == counter'
  {
    hide BlockInput;
    BlockInputMeans(seed, counter);
    BlockInputMeans(seed', counter');
  }

  function DrbgBlock(sha: Sha, seed: U64, counter: U64): (b: seq<Byte>)
    ensures |b| == 48
  {
    sha(BlockInput(seed, counter))
  }

  /** Block `counter` of `seed`: the digest of the two numbers, little-endian. */
  function DrbgBlocks(sha: Sha): Blocks {
    (seed: U64, counter: U64) => DrbgBlock(sha, seed, counter)
  }

  /** `wrapping_add(1)`. */
  function Next(counter: U64): U64 {
    if counter == U64_MAX then 0 else counter + 1
  }

  /** The 64-bit counter that block `n` is derived from. */
  function CounterOf(n: nat): U64 {
    if n == 0 then 0 else Next(CounterOf(n - 1))
  }

  lemma {:induction false} CounterIsModulo(n: nat)
    ensures CounterOf(n) == n % (U64_MAX + 1)
  {
    if n > 0 {
      CounterIsModulo(n - 1);
      ModuloNext(n - 1);
    }
  }

  lemma ModuloNext(n: nat)
    ensures (n + 1) % (U64_MAX + 1) == if n % (U64_MAX + 1) == U64_MAX then 0 else n % (U64_MAX + 1) + 1
  {
  }

  /** Byte `i` of the concatenation of blocks `n`, `n + 1`, ... */
  function BlocksFrom(blocks: Blocks, seed: U64, n: nat, i: nat): Byte
    decreases i
  {
    if i < 48 then blocks(seed, CounterOf(n))[i] else BlocksFrom(blocks, seed, n + 1, i - 48)
  }

  /** The stream of `seed`. */
  function Stream(blocks: Blocks, seed: U64): nat -> Byte {
    (i: nat) => BlocksFrom(blocks, seed, 0, i)
  }

  lemma {:induction false} BlocksFromAt(blocks: Blocks, seed: U64, m: nat, n: nat, k: nat, i: nat)
    requires k < 48 && i == 48 * n + k
    ensures BlocksFrom(blocks, seed, m, i) == blocks(seed, CounterOf(m + n))[k]
    decreases n
  {
    if n > 0 {
      BlocksFromAt(blocks, seed, m + 1, n - 1, k, i - 48);
    }
  }

  /** Byte `i` of the stream in closed form. */
  lemma StreamAt(sha: Sha, seed: U64, i: nat)
    ensures Stream(DrbgBlocks(sha), seed)(i)
         == sha(BlockInput(seed, i / 48 % (U64_MAX + 1)))[i % 48]
  {
    BlocksFromAt(DrbgBlocks(sha), seed, 0, i / 48, i % 48, i);
    CounterIsModulo(i / 48);
  }

  function Segment(stream: nat -> Byte, from: nat, n: nat): (s: seq<Byte>)
    ensures |s| == n
    ensures forall k | 0 <= k < n :: s[k] == stream(from + k)
  {
    seq<Byte>(n, k requires 0 <= k => stream(from + k))
  }

  lemma SegmentsJoin(stream: nat -> Byte, from: nat, m: nat, n: nat)
    ensures Segment(stream, from, m) + Segment(stream, from + m, n) == Segment(stream, from, m + n)
  {
  }

  lemma SegmentNext(stream: nat -> Byte, from: nat, n: nat)
    ensures Segment(stream, from, n + 1) == Segment(stream, from, n) + [stream(from + n)]
  {
  }

  function Sum(ns: seq<nat>): nat {
    if ns == [] then 0 else ns[0] + Sum(ns[1..])
  }

  /** The bytes that reads of the given sizes return, one after the other. */
  function Reads(stream: nat -> Byte, from: nat, ns: seq<nat>): seq<Byte>
    decreases ns
  {
    if ns == [] then [] else Segment(stream, from, ns[0]) + Reads(stream, from + ns[0], ns[1..])
  }

  /** However a read is cut into pieces, the pieces join up to the same bytes. */
  lemma {:induction false} ReadsAreOneSegment(stream: nat -> Byte, from: nat, ns: seq<nat>)
    ensures Reads(stream, from, ns) == Segment(stream, from, Sum(ns))
    decreases ns
  {
    if ns != [] {
      ReadsAreOneSegment(stream, from + ns[0], ns[1..]);
      SegmentsJoin(stream, from, ns[0], Sum(ns[1..]));
    }
  }

  lemma CounterPeriod(n: nat, m: nat)
    requires m == n + (U64_MAX + 1)
    ensures CounterOf(m) == CounterOf(n)
  {
    CounterIsModulo(n);
    CounterIsModulo(m);
  }

  /** The counter wraps, so the stream repeats after 48 * 2^64 bytes. */
  lemma StreamPeriod(blocks: Blocks, seed: U64, i: nat)
    ensures Stream(blocks, seed)(i + 48 * (U64_MAX + 1)) == Stream(blocks, seed)(i)
  {
    var n, k := i / 48, i % 48;
    BlocksFromAt(blocks, seed, 0, n, k, i);
    BlocksFromAt(blocks, seed, 0, n + (U64_MAX + 1), k, i + 48 * (U64_MAX + 1));
    CounterPeriod(n, n + (U64_MAX + 1));
  }

  // ---- Assembling a word ----------------------------------------------------

  lemma {:induction false} LittleEndianBound(s: seq<Byte>)
    ensures FromLittleEndian(s) < Pow2(8 * |s|)
  {
    if s != [] {
      LittleEndianBound(s[1..]);
      Pow2Sum(8, 8 * |s| - 8);
      Pow2Of8();
    }
  }

  lemma {:induction false} LittleEndianSnoc(s: seq<Byte>, b: Byte)
    ensures FromLittleEndian(s + [b]) == FromLittleEndian(s) + b * Pow2(8 * |s|)
  {
    if s == [] {
      assert [] + [b] == [b];
    } else {
      LittleEndianSnoc(s[1..], b);
      assert (s + [b])[1..] == s[1..] + [b];
      Pow2Sum(8, 8 * |s| - 8);
      Pow2Of8();
      Scale(b, Pow2(8 * |s| - 8));
    }
  }

  lemma Scale(b: nat, p: nat)
    ensures 256 * (b * p) == b * (256 * p)
  {
  }

  lemma ShiftFits(b: nat, p: nat, q: nat)
    requires b < 256 && p > 0 && q == 256 * p
    ensures b * p < q && b * p % p == 0
  {
    assert b * p < 256 * p;
    DivisionUnique(b * p, p, b, 0);
  }

  lemma {:induction false} Pow2Grows(i: nat, j: nat)
    requires i <= j
    ensures Pow2(i) <= Pow2(j)
  {
    if i < j {
      Pow2Grows(i, j - 1);
    }
  }

  /** A byte shifted within 64 bits loses nothing. */
  lemma ShiftedByte(b: Byte, j: nat)
    requires j + 8 <= 64
    ensures Shl(b, j) == b * Pow2(j) && b * Pow2(j) % Pow2(j) == 0
  {
    Pow2Sum(8, j);
    Pow2Of8();
    ShiftFits(b, Pow2(j), Pow2(j + 8));
    Pow2Grows(j + 8, 64);
    Pow2Of64();
    RemainderOfSmall(b * Pow2(j), U64_MAX + 1);
  }

  /** Or-ing in the next byte, shifted into place, appends it to the little-endian number. */
  lemma OrNextByte(s: seq<Byte>, b: Byte, v: U64)
    requires |s| < 8 && v == FromLittleEndian(s)
    ensures Or(v, Shl(b, 8 * |s|)) == FromLittleEndian(s + [b])
  {
    hide OrBits;
    hide Shl;
    hide Pow2;
    hide FromLittleEndian;
    var j := 8 * |s|;
    LittleEndianBound(s);
    LittleEndianBound(s + [b]);
    LittleEndianSnoc(s, b);
    Pow2Grows(j + 8, 64);
    Pow2Of64();
    ShiftedByte(b, j);
    OrDisjoint(v, b * Pow2(j), j, 64);
  }

  // ---- The device ----------------------------------------------------------

  class VirtioRng {
    const blocks: Blocks
    const id: nat
    var seed: U64
    var counter: U64
    var block: seq<Byte>
    var pos: nat
    /** How many blocks of the stream have been generated since it was last rewound. */
    ghost var drawn: nat

    ghost predicate Valid()
      reads this
    {
      && pos <= BLOCK_LEN
      && drawn > 0
      && counter == CounterOf(drawn)
      && block == blocks(seed, CounterOf(drawn - 1))
    }

    /** The index in the stream of the next byte to be returned. */
    ghost function Position(): nat
      requires Valid()
      reads this
    {
      48 * (drawn - 1) + pos
    }

    constructor (blocks: Blocks, id: nat, seed: U64)
      ensures Valid() && Position() == 0 && this.seed == seed && this.blocks == blocks && this.id == id
    {
      this.blocks := blocks;
      this.id := id;
      this.seed := seed;
      counter := 0;
      block := Zeros(48);
      pos := BLOCK_LEN;
      drawn := 0;
      new;
      Refill();
    }

    method Refill()
      requires counter == CounterOf(drawn)
      modifies this
      ensures Valid() && pos == 0 && drawn == old(drawn) + 1 && seed == old(seed)
    {
      block := blocks(seed, counter);
      counter := Next(counter);
      pos := 0;
      drawn := drawn + 1;
    }

    method Reseed(seed: U64)
      modifies this
      ensures Valid() && Position() == 0 && this.seed == seed
    {
      this.seed := seed;
      counter := 0;
      pos := BLOCK_LEN;
      drawn := 0;
      Refill();
    }

    method Reset()
      modifies this
      ensures Valid() && Position() == 0 && seed == old(seed)
    {
      counter := 0;
      pos := BLOCK_LEN;
      drawn := 0;
      Refill();
    }

    method NextByte() returns (b: Byte)
      requires Valid()
      modifies this
      ensures Valid() && seed == old(seed) && Position() == old(Position()) + 1
      ensures b == Stream(blocks, seed)(old(Position()))
    {
      if pos >= BLOCK_LEN {
        Refill();
      }
      BlocksFromAt(blocks, seed, 0, drawn - 1, pos, Position());
      b := block[pos];
      pos := pos + 1;
    }

    method Fill(buf: array<Byte>)
      requires Valid()
      modifies this, buf
      ensures Valid() && seed == old(seed) && Position() == old(Position()) + buf.Length
      ensures buf[..] == Segment(Stream(blocks, seed), old(Position()), buf.Length)
    {
      ghost var start := Position();
      for i := 0 to buf.Length
        invariant Valid() && seed == old(seed) && Position() == start + i
        invariant buf[..i] == Segment(Stream(blocks, seed), start, i)
      {
        SegmentNext(Stream(blocks, seed), start, i);
        var b := NextByte();
        buf[i] := b;
      }
      assert buf[..buf.Length] == buf[..];
    }

    method Bytes(n: nat) returns (v: array<Byte>)
      requires Valid()
      modifies this
      ensures fresh(v) && Valid() && seed == old(seed) && Position() == old(Position()) + n
      ensures v[..] == Segment(Stream(blocks, seed), old(Position()), n)
    {
      v := new Byte[n](_ => 0);
      Fill(v);
    }

    /** Assemble the next `n` bytes, least significant first. */
    method ReadWord(n: nat) returns (val: U64)
      requires Valid() && n <= 8
      modifies this
      ensures Valid() && seed == old(seed) && Position() == old(Position()) + n
      ensures val == FromLittleEndian(Segment(Stream(blocks, seed), old(Position()), n))
    {
      val := 0;
      ghost var start := Position();
      for i := 0 to n
        invariant Valid() && seed == old(seed) && Position() == start + i
        invariant val == FromLittleEndian(Segment(Stream(blocks, seed), start, i))
      {
        ghost var sofar := Segment(Stream(blocks, seed), start, i);
        SegmentNext(Stream(blocks, seed), start, i);
        var b := NextByte();
        OrNextByte(sofar, b, val);
        val := Or(val, Shl(b, 8 * i));
      }
    }

    /** A word read is the little-endian number of the next bytes of the stream. */
    method MmioRead(offset: U64, width: Width) returns (r: Result<U64, DevError>)
      requires Valid()
      modifies this
      ensures Valid() && seed == old(seed)
      ensures offset == REG_DATA ==>
        && r == Ok(FromLittleEndian(Segment(Stream(blocks, seed), old(Position()), width.Size())))
        && Position() == old(Position()) + width.Size()
      ensures offset != REG_DATA ==> r == Err(OffsetOutOfRange(offset)) && Position() == old(Position())
    {
      if offset == REG_DATA {
        ghost var start := Position();
        var val := ReadWord(width.Size());
        MaskedWord(Segment(Stream(blocks, seed), start, width.Size()), width, val);
        r := Ok(And(val, width.Mask()));
      } else {
        r := Err(OffsetOutOfRange(offset));
      }
    }

    /** Writing the seed register rewinds to the start of the new seed's stream. */
    method MmioWrite(offset: U64, width: Width, value: U64) returns (r: Result<(), DevError>)
      requires Valid()
      modifies this
      ensures Valid()
      ensures offset == REG_SEED && value <= width.Mask() ==> r == Ok(()) && seed == value && Position() == 0
      ensures offset == REG_SEED && value > width.Mask() ==> r == Err(ValueTooWide(value, width))
      ensures offset != REG_SEED ==> r == Err(OffsetOutOfRange(offset))
      ensures r.Err? ==> seed == old(seed) && Position() == old(Position())
    {
      if offset == REG_SEED {
        MaskFits(value, width);
        if And(value, Not(width.Mask())) != 0 {
          return Err(ValueTooWide(value, width));
        }
        Reseed(value);
        r := Ok(());
      } else {
        r := Err(OffsetOutOfRange(offset));
      }
    }
  }

  lemma MaskedWord(s: seq<Byte>, width: Width, v: U64)
    requires |s| == width.Size() && v == FromLittleEndian(s)
    ensures And(v, width.Mask()) == v
  {
    MaskKeepsLowBytes(v, width);
    LittleEndianBound(s);
    RemainderOfSmall(v, Pow2(8 * width.Size()));
  }
}
