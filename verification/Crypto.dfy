// crates/hyper-qrse/src/crypto.rs: domain-separated key derivation, the seed-driven
// KEM and the padded MAC signatures.
module Crypto {
  import opened Bytes
  import opened Framing
  import opened Wrappers
  import Combiner
  import Hex
  import Utf8

  type Sha = Combiner.Sha

  // ---- Key derivation ---------------------------------------------------------

  /** The domains the crate derives keys in. */
  datatype Domain = KemRoot | KemEk | KemR | KemCt | KemSs | SigSk | SigPk | SigPad {
    function Label(): seq<Byte> {
      match this
      case KemRoot => KEM + [0x72, 0x6F, 0x6F, 0x74]
      case KemEk => KEM + [0x65, 0x6B]
      case KemR => KEM + [0x72]
      case KemCt => KEM + [0x63, 0x74]
      case KemSs => KEM + [0x73, 0x73]
      case SigSk => SIG + [0x73, 0x6B]
      case SigPk => SIG + [0x70, 0x6B]
      case SigPad => SIG + [0x70, 0x61, 0x64]
    }
  }

  /** `b"qrse:kem:"` and `b"qrse:sig:"`. */
  const KEM: seq<Byte> := [0x71, 0x72, 0x73, 0x65, 0x3A, 0x6B, 0x65, 0x6D, 0x3A]
  const SIG: seq<Byte> := [0x71, 0x72, 0x73, 0x65, 0x3A, 0x73, 0x69, 0x67, 0x3A]

  function KdfInput(d: Domain, parts: seq<seq<Byte>>): seq<Byte> {
    d.Label() + Frames(parts)
  }

  function Kdf(h: Sha, d: Domain, parts: seq<seq<Byte>>): (k: seq<Byte>)
    ensures |k| == 32
  {
    h(KdfInput(d, parts))[..32]
  }

  /** The labels as the source writes them. */
  function Text(d: Domain): string {
    match d
    case KemRoot => "qrse:kem:root"
    case KemEk => "qrse:kem:ek"
    case KemR => "qrse:kem:r"
    case KemCt => "qrse:kem:ct"
    case KemSs => "qrse:kem:ss"
    case SigSk => "qrse:sig:sk"
    case SigPk => "qrse:sig:pk"
    case SigPad => "qrse:sig:pad"
  }

  lemma LabelIsText(d: Domain)
    ensures d.Label() == Utf8.Encode(Text(d))
  {
    hide Utf8.Encode;
    assert |Text(d)| == |d.Label()|;
    forall i | 0 <= i < |Text(d)|
      ensures Text(d)[i] as int == d.Label()[i]
    {
      LabelAt(d, i);
    }
    Utf8.AsciiIsItself(Text(d));
  }

  lemma LabelAt(d: Domain, i: nat)
    requires i < |Text(d)|
    ensures |Text(d)| == |d.Label()| && Text(d)[i] as int == d.Label()[i]
  {
  }

  /** Labels that are not prefixes of one another. */
  predicate Apart(d: Domain, e: Domain) {
    d != e && !(d.KemR? && e.KemRoot?) && !(d.KemRoot? && e.KemR?)
  }

  lemma LabelsDiffer(d: Domain, e: Domain) returns (i: nat)
    requires Apart(d, e)
    ensures i < |d.Label()| && i < |e.Label()| && d.Label()[i] != e.Label()[i]
  {
    i := if (d.SigSk? || d.SigPk? || d.SigPad?) != (e.SigSk? || e.SigPk? || e.SigPad?) then 5
         else if d.Label()[9] != e.Label()[9] then 9
         else 10;
  }

  lemma DomainsSeparate(d: Domain, ps: seq<seq<Byte>>, e: Domain, qs: seq<seq<Byte>>)
    requires Apart(d, e)
    ensures KdfInput(d, ps) != KdfInput(e, qs)
  {
    hide Frames;
    var i := LabelsDiffer(d, e);
    assert KdfInput(d, ps)[i] == d.Label()[i] && KdfInput(e, qs)[i] == e.Label()[i];
  }

  /** The rest of the root label after the randomness label, as bytes and as a number. */
  const OOT: seq<Byte> := [0x6F, 0x6F, 0x74]
  const OOT_VALUE: nat := 0x6F6F74
  const TWO40: nat := 0x100_0000_0000

  lemma {:induction false} BigEndianSplit(q: nat, r: nat, j: nat, k: nat)
    requires r < Pow(256, k)
    ensures BigEndian(q * Pow(256, k) + r, j + k) == BigEndian(q, j) + BigEndian(r, k)
    decreases k
  {
    if k > 0 {
      var n, p := q * Pow(256, k) + r, Pow(256, k - 1);
      Times256(q, p);
      DivisionUnique(n, 256, q * p + r / 256, r % 256);
      BigEndianSplit(q, r / 256, j, k - 1);
      assert BigEndian(n, j + k) == BigEndian(q, j) + BigEndian(r / 256, k - 1) + [r % 256];
    }
  }

  lemma Times256(a: nat, p: nat)
    ensures a * (256 * p) == 256 * (a * p)
  {
  }

  lemma Pow256Five()
    ensures Pow(256, 3) == 0x100_0000 && Pow(256, 5) == TWO40
  {
  }

  lemma OotBytes()
    ensures BigEndian(OOT_VALUE, 3) == OOT
  {
  }

  /** A length prefix begins like the rest of the root label for the lengths of one range exactly. */
  lemma PrefixExactly(n: U64)
    ensures BigEndian(n, 8)[..3] == OOT <==> n / TWO40 == OOT_VALUE
    ensures BigEndian(n, 8)[3..] == BigEndian(n % TWO40, 5)
  {
    hide BigEndian;
    hide Pow;
    var q, r := Divide(n, TWO40);
    Pow256Five();
    BigEndianSplit(q, r, 3, 5);
    OotBytes();
    BigEndianRoundTrip(q, 3);
    BigEndianRoundTrip(OOT_VALUE, 3);
  }

  /** The first part of a derivation under `KemR` has a length that does not continue the label to the other's. */
  predicate Unambiguous(d: Domain, ps: seq<seq<Byte>>) {
    d.KemR? && ps != [] ==> |ps[0]| / TWO40 != OOT_VALUE
  }

  /** `qrse:kem:r` is a prefix of `qrse:kem:root`; the length that follows keeps them apart. */
  lemma RIsNotRoot(ps: seq<seq<Byte>>, qs: seq<seq<Byte>>)
    requires Unambiguous(KemR, ps) && ps != [] && InMemory(ps[0])
    ensures KdfInput(KemR, ps) != KdfInput(KemRoot, qs)
  {
    var n := BigEndian(|ps[0]|, 8);
    var u, v := KdfInput(KemR, ps), KdfInput(KemRoot, qs);
    RInput(ps);
    RootInput(qs);
    PrefixExactly(|ps[0]|);
    assert u[10..13] != v[10..13];
  }

  lemma RInput(ps: seq<seq<Byte>>)
    requires ps != []
    ensures |KdfInput(KemR, ps)| >= 18 && KdfInput(KemR, ps)[10..13] == BigEndian(|ps[0]|, 8)[..3]
  {
    hide BigEndian;
    var n := BigEndian(|ps[0]|, 8);
    assert KdfInput(KemR, ps) == (KEM + [0x72]) + n + (ps[0] + Frames(ps[1..]));
  }

  lemma RootInput(qs: seq<seq<Byte>>)
    ensures |KdfInput(KemRoot, qs)| >= 13 && KdfInput(KemRoot, qs)[10..13] == OOT
  {
    hide Frames;
    assert KdfInput(KemRoot, qs) == (KEM + [0x72]) + OOT + Frames(qs);
  }

  /** Equal derivation inputs have one domain and the same parts. */
  lemma KdfInputInjective(d: Domain, ps: seq<seq<Byte>>, e: Domain, qs: seq<seq<Byte>>)
    requires (forall p | p in ps :: InMemory(p)) && (forall q | q in qs :: InMemory(q))
    requires Unambiguous(d, ps) && Unambiguous(e, qs)
    requires KdfInput(d, ps) == KdfInput(e, qs)
    ensures d == e && ps == qs
  {
    hide Frames;
    if Apart(d, e) {
      DomainsSeparate(d, ps, e, qs);
    } else if d == e {
      var n := |d.Label()|;
      assert KdfInput(d, ps)[n..] == Frames(ps) && KdfInput(e, qs)[n..] == Frames(qs);
      FramesInjective(ps, qs);
    } else if d.KemR? {
      ROrRoot(ps, qs);
    } else {
      ROrRoot(qs, ps);
    }
  }

  lemma ROrRoot(ps: seq<seq<Byte>>, qs: seq<seq<Byte>>)
    requires Unambiguous(KemR, ps) && forall p | p in ps :: InMemory(p)
    ensures KdfInput(KemR, ps) != KdfInput(KemRoot, qs)
  {
    if ps != [] {
      RIsNotRoot(ps, qs);
    } else {
      RootInput(qs);
    }
  }

  // ---- Where the two labels meet --------------------------------------------------

  lemma TwoFrames(p: seq<Byte>, q: seq<Byte>)
    ensures Frames([p, q]) == Frame(p) + Frame(q)
  {
    assert [p, q][1..] == [q] && [q][1..] == [];
    assert Frames([q]) == Frame(q) + [];
  }

  /** The two derivations of the crate that could be confused, written out. */
  lemma RAndRoot(ek: seq<Byte>, seed: seq<Byte>, alg: seq<Byte>, seed': seq<Byte>)
    ensures KdfInput(KemR, [ek, seed]) == (KEM + [0x72]) + (BigEndian(|ek|, 8) + (ek + Frame(seed)))
    ensures KdfInput(KemRoot, [alg, seed']) == (KEM + [0x72]) + (OOT + (BigEndian(|alg|, 8) + (alg + Frame(seed'))))
  {
    hide BigEndian;
    hide Frames;
    TwoFrames(ek, seed);
    TwoFrames(alg, seed');
    Regroup(KEM + [0x72], [], BigEndian(|ek|, 8), ek, Frame(seed));
    Regroup(KEM + [0x72], OOT, BigEndian(|alg|, 8), alg, Frame(seed'));
    assert KemR.Label() == (KEM + [0x72]) + [] && KemRoot.Label() == (KEM + [0x72]) + OOT;
  }

  lemma Regroup(a: seq<Byte>, b: seq<Byte>, c: seq<Byte>, d: seq<Byte>, e: seq<Byte>)
    ensures (a + b) + (c + d + e) == a + (b + (c + (d + e)))
    ensures b == [] ==> b + (c + (d + e)) == c + (d + e)
  {
  }

  /** The algorithm name's length: its first five bytes are given, and it keeps clear of `n` by more than a frame. */
  function MeetingLength(n: U64): (m: U64)
    requires n / TWO40 == OOT_VALUE
    ensures m / 0x100_0000 == n % TWO40 && (m + 11 <= n || n + 5 <= m)
  {
    var m := n % TWO40 * 0x100_0000;
    if m + 11 <= n || n + 5 <= m then m else m + 0x10_0000
  }

  lemma MeetingPrefixes(n: U64) returns (t: seq<Byte>, x: seq<Byte>)
    requires n / TWO40 == OOT_VALUE
    ensures |x| == 3
    ensures BigEndian(n, 8) == OOT + t && BigEndian(MeetingLength(n), 8) == t + x
  {
    hide BigEndian;
    hide Pow;
    hide MeetingLength;
    PrefixExactly(n);
    t := BigEndian(n % TWO40, 5);
    assert BigEndian(n, 8) == BigEndian(n, 8)[..3] + BigEndian(n, 8)[3..];
    var q, r := Divide(MeetingLength(n), 0x100_0000);
    Pow256Five();
    BigEndianSplit(q, r, 5, 3);
    x := BigEndian(r, 3);
  }

  /** An encapsulation key of such a length can carry the algorithm name, its length and a seed of a key root. */
  lemma Meeting(n: U64) returns (ek: seq<Byte>, seed: seq<Byte>, alg: seq<Byte>, seed': seq<Byte>)
    requires n / TWO40 == OOT_VALUE
    ensures |ek| == n && InMemory(seed) && InMemory(alg) && InMemory(seed')
    ensures KdfInput(KemR, [ek, seed]) == KdfInput(KemRoot, [alg, seed'])
  {
    hide BigEndian;
    hide KdfInput;
    hide MeetingLength;
    var t, x := MeetingPrefixes(n);
    var m := MeetingLength(n);
    var none := BigEndian(0, 8);
    if m + 11 <= n {
      var z := Zeros(n - 11 - m);
      alg, seed, seed' := Zeros(m), [], z + none;
      ek := x + (alg + (BigEndian(|seed'|, 8) + z));
      assert ek + Frame(seed) == x + (alg + Frame(seed'));
    } else {
      var z := Zeros(m - n - 5);
      seed, seed' := z + none, [];
      ek := x + Zeros(n - 3);
      alg := Zeros(n - 3) + (BigEndian(|seed|, 8) + z);
      assert ek + Frame(seed) == x + (alg + Frame(seed'));
    }
    RAndRoot(ek, seed, alg, seed');
    Aligned(t, x, ek + Frame(seed), alg + Frame(seed'));
  }

  lemma Aligned(t: seq<Byte>, x: seq<Byte>, u: seq<Byte>, v: seq<Byte>)
    requires u == x + v
    ensures (OOT + t) + u == OOT + ((t + x) + v)
  {
  }

  /**
   * Encapsulation randomness and key root are derived from different inputs exactly outside one
   * range of key lengths.
   */
  lemma RandomnessApartFromRoot(n: U64)
    ensures (forall ek: seq<Byte>, seed: seq<Byte>, alg: seq<Byte>, seed': seq<Byte>
        | |ek| == n && InMemory(seed) && InMemory(alg) && InMemory(seed') ::
          KdfInput(KemR, [ek, seed]) != KdfInput(KemRoot, [alg, seed']))
      <==> n / TWO40 != OOT_VALUE
  {
    hide KdfInput;
    if n / TWO40 == OOT_VALUE {
      var ek, seed, alg, seed' := Meeting(n);
    } else {
      forall ek: seq<Byte>, seed: seq<Byte>, alg: seq<Byte>, seed': seq<Byte>
        | |ek| == n && InMemory(seed) && InMemory(alg) && InMemory(seed')
        ensures KdfInput(KemR, [ek, seed]) != KdfInput(KemRoot, [alg, seed'])
      {
        RIsNotRoot([ek, seed], [alg, seed']);
      }
    }
  }

  // ---- The KEM ----------------------------------------------------------------

  function Root(h: Sha, alg: seq<Byte>, seed: seq<Byte>): seq<Byte> { Kdf(h, KemRoot, [alg, seed]) }

  function EncapKey(h: Sha, root: seq<Byte>): seq<Byte> { Kdf(h, KemEk, [root]) }

  function SharedSecret(h: Sha, ek: seq<Byte>, ct: seq<Byte>): Combiner.Secret { Kdf(h, KemSs, [ek, ct]) }

  /** The encapsulation key and the decapsulation key. */
  function GenerateKeypair(h: Sha, alg: seq<Byte>, seed: seq<Byte>): (seq<Byte>, seq<Byte>) {
    (EncapKey(h, Root(h, alg, seed)), Root(h, alg, seed))
  }

  function Encapsulate(h: Sha, ek: seq<Byte>, seed: seq<Byte>): (seq<Byte>, Combiner.Secret) {
    var ct := Kdf(h, KemCt, [ek, Kdf(h, KemR, [ek, seed])]);
    (ct, SharedSecret(h, ek, ct))
  }

  function Decapsulate(h: Sha, dk: seq<Byte>, ct: seq<Byte>): Result<Combiner.Secret, Combiner.CryptoError> {
    if dk == [] then Err(Combiner.BadKeyLength(32, 0))
    else if ct == [] then Err(Combiner.Decapsulation)
    else Ok(SharedSecret(h, EncapKey(h, dk), ct))
  }

  /** Decapsulation recovers the encapsulated secret. */
  lemma KemRoundTrip(h: Sha, alg: seq<Byte>, seed: seq<Byte>, random: seq<Byte>)
    ensures
      var (ek, dk) := GenerateKeypair(h, alg, seed);
      var (ct, ss) := Encapsulate(h, ek, random);
      Decapsulate(h, dk, ct) == Ok(ss)
  {
    hide KdfInput;
  }

  /** These two inputs differ, and their digests agree in the 32 bytes that `kdf` keeps. */
  predicate Truncates(h: Sha, x: seq<Byte>, y: seq<Byte>) {
    x != y && h(x)[..32] == h(y)[..32]
  }

  lemma KdfBinds(h: Sha, d: Domain, ps: seq<seq<Byte>>, e: Domain, qs: seq<seq<Byte>>)
    requires (forall p | p in ps :: InMemory(p)) && (forall q | q in qs :: InMemory(q))
    requires Unambiguous(d, ps) && Unambiguous(e, qs)
    requires Kdf(h, d, ps) == Kdf(h, e, qs)
    ensures (d == e && ps == qs) || Truncates(h, KdfInput(d, ps), KdfInput(e, qs))
  {
    hide KdfInput;
    if KdfInput(d, ps) == KdfInput(e, qs) {
      KdfInputInjective(d, ps, e, qs);
    }
  }

  lemma KdfBindsParts(h: Sha, d: Domain, ps: seq<seq<Byte>>, qs: seq<seq<Byte>>)
    requires (forall p | p in ps :: InMemory(p)) && (forall q | q in qs :: InMemory(q))
    requires Kdf(h, d, ps) == Kdf(h, d, qs)
    ensures ps == qs || Truncates(h, KdfInput(d, ps), KdfInput(d, qs))
  {
    hide Frames;
    if KdfInput(d, ps) == KdfInput(d, qs) {
      var n := |d.Label()|;
      assert KdfInput(d, ps)[n..] == Frames(ps) && KdfInput(d, qs)[n..] == Frames(qs);
      FramesInjective(ps, qs);
    }
  }

  lemma KdfBindsPair(h: Sha, d: Domain, a: seq<Byte>, b: seq<Byte>, a': seq<Byte>, b': seq<Byte>)
    requires InMemory(a) && InMemory(b) && InMemory(a') && InMemory(b')
    requires Kdf(h, d, [a, b]) == Kdf(h, d, [a', b'])
    ensures (a == a' && b == b') || Truncates(h, KdfInput(d, [a, b]), KdfInput(d, [a', b']))
  {
    hide Kdf;
    hide KdfInput;
    hide Truncates;
    KdfBindsParts(h, d, [a, b], [a', b']);
    assert [a, b] == [a', b'] ==> [a, b][0] == [a', b'][0] && [a, b][1] == [a', b'][1];
  }

  /** One decapsulation key is for one algorithm and seed, or the two derivations of the root collide. */
  lemma KeypairBinds(h: Sha, alg: seq<Byte>, seed: seq<Byte>, alg': seq<Byte>, seed': seq<Byte>)
    requires InMemory(alg) && InMemory(seed) && InMemory(alg') && InMemory(seed')
    requires GenerateKeypair(h, alg, seed).1 == GenerateKeypair(h, alg', seed').1
    ensures GenerateKeypair(h, alg, seed).0 == GenerateKeypair(h, alg', seed').0
    ensures (alg == alg' && seed == seed')
      || Truncates(h, KdfInput(KemRoot, [alg, seed]), KdfInput(KemRoot, [alg', seed']))
  {
    hide Kdf;
    hide KdfInput;
    hide Truncates;
    KdfBindsPair(h, KemRoot, alg, seed, alg', seed');
  }

  /** What encapsulation draws from the caller's seed for this key. */
  function Randomness(h: Sha, ek: seq<Byte>, seed: seq<Byte>): seq<Byte> { Kdf(h, KemR, [ek, seed]) }

  /**
   * One ciphertext is for one encapsulation key and one seed, or the two derivations of the ciphertext, or
   * those of the randomness, collide in the truncated digest.
   */
  lemma EncapsulationBinds(h: Sha, ek: seq<Byte>, seed: seq<Byte>, ek': seq<Byte>, seed': seq<Byte>)
    requires InMemory(ek) && InMemory(seed) && InMemory(ek') && InMemory(seed')
    requires Encapsulate(h, ek, seed).0 == Encapsulate(h, ek', seed').0
    ensures
      || (ek == ek' && seed == seed')
      || Truncates(h, KdfInput(KemCt, [ek, Randomness(h, ek, seed)]), KdfInput(KemCt, [ek', Randomness(h, ek', seed')]))
      || Truncates(h, KdfInput(KemR, [ek, seed]), KdfInput(KemR, [ek', seed']))
  {
    hide Kdf;
    hide KdfInput;
    hide Truncates;
    var r, r' := Randomness(h, ek, seed), Randomness(h, ek', seed');
    assert InMemory(r) && InMemory(r');
    KdfBindsPair(h, KemCt, ek, r, ek', r');
    if ek == ek' && r == r' {
      KdfBindsPair(h, KemR, ek, seed, ek', seed');
    }
  }

  /** What decapsulation refuses: an empty key, or else an empty ciphertext, and nothing more. */
  lemma DecapsulationRefuses(h: Sha, dk: seq<Byte>, ct: seq<Byte>)
    ensures Decapsulate(h, dk, ct).Ok? <==> dk != [] && ct != []
    ensures dk == [] ==> Decapsulate(h, dk, ct) == Err(Combiner.BadKeyLength(32, 0))
    ensures dk != [] && ct == [] ==> Decapsulate(h, dk, ct) == Err(Combiner.Decapsulation)
    ensures Decapsulate(h, dk, ct).Ok? ==> |Decapsulate(h, dk, ct).value| == 32
  {
  }

  /**
   * Any other key or ciphertext yields another secret, or the two derivations of the secret, or those of
   * the encapsulation keys, collide in the truncated digest.
   */
  lemma DecapsulationBinds(h: Sha, dk: seq<Byte>, ct: seq<Byte>, dk': seq<Byte>, ct': seq<Byte>)
    requires InMemory(dk) && InMemory(ct) && InMemory(dk') && InMemory(ct')
    requires Decapsulate(h, dk, ct).Ok? && Decapsulate(h, dk, ct) == Decapsulate(h, dk', ct')
    ensures
      || (dk == dk' && ct == ct')
      || Truncates(h, KdfInput(KemSs, [EncapKey(h, dk), ct]), KdfInput(KemSs, [EncapKey(h, dk'), ct']))
      || Truncates(h, KdfInput(KemEk, [dk]), KdfInput(KemEk, [dk']))
  {
    hide Kdf;
    hide KdfInput;
    hide Truncates;
    var ek, ek' := EncapKey(h, dk), EncapKey(h, dk');
    KdfBinds(h, KemSs, [ek, ct], KemSs, [ek', ct']);
    if [ek, ct] == [ek', ct'] {
      assert [ek, ct][0] == [ek', ct'][0] && [ek, ct][1] == [ek', ct'][1];
      KdfBinds(h, KemEk, [dk], KemEk, [dk']);
      assert [dk] == [dk'] ==> [dk][0] == [dk'][0];
    }
  }

  // ---- Signatures -------------------------------------------------------------

  /** HMAC-SHA384: a secret and a message to 48 bytes. */
  type Mac = f: (seq<Byte>, seq<Byte>) -> seq<Byte> | forall k: seq<Byte>, m: seq<Byte> :: |f(k, m)| == 48
    ghost witness (_, _) => Zeros(48)

  datatype Signature = Signature(algorithm: string, keyId: string, bytes: seq<Byte>)

  datatype Signer = Signer(algorithm: string, keyId: string, secret: seq<Byte>, declared: nat)

  function NewSigner(h: Sha, algorithm: string, keyId: string, seed: seq<Byte>, declared: nat): Signer {
    Signer(algorithm, keyId, Kdf(h, SigSk, [Utf8.Encode(algorithm), Utf8.Encode(keyId), seed]), declared)
  }

  /** Two signers with one secret have one algorithm, key id and seed, or their derivations collide. */
  lemma SignerSecretBinds(
      h: Sha, alg: string, id: string, seed: seq<Byte>, n: nat, alg': string, id': string, seed': seq<Byte>, n': nat)
    requires InMemory(Utf8.Encode(alg)) && InMemory(Utf8.Encode(id)) && InMemory(seed)
    requires InMemory(Utf8.Encode(alg')) && InMemory(Utf8.Encode(id')) && InMemory(seed')
    requires NewSigner(h, alg, id, seed, n).secret == NewSigner(h, alg', id', seed', n').secret
    ensures
      || (alg == alg' && id == id' && seed == seed')
      || Truncates(h, KdfInput(SigSk, [Utf8.Encode(alg), Utf8.Encode(id), seed]),
           KdfInput(SigSk, [Utf8.Encode(alg'), Utf8.Encode(id'), seed']))
  {
    hide Kdf;
    hide KdfInput;
    hide Truncates;
    hide Utf8.Encode;
    var ps, qs := [Utf8.Encode(alg), Utf8.Encode(id), seed], [Utf8.Encode(alg'), Utf8.Encode(id'), seed'];
    KdfBinds(h, SigSk, ps, SigSk, qs);
    if ps == qs {
      assert ps[0] == qs[0] && ps[1] == qs[1] && ps[2] == qs[2];
      Utf8.EncodeInjective(alg, alg');
      Utf8.EncodeInjective(id, id');
    }
  }

  /** The MAC covers the algorithm name, a bar and the message. */
  function TagInput(s: Signer, message: seq<Byte>): seq<Byte> {
    Utf8.Encode(s.algorithm) + [0x7C] + message
  }

  function Tag(mac: Mac, s: Signer, message: seq<Byte>): (t: seq<Byte>)
    ensures |t| == 48
  {
    mac(s.secret, TagInput(s, message))
  }

  /** For algorithm names without a bar, what is tagged determines the name and the message. */
  lemma TagInputBinds(s: Signer, message: seq<Byte>, s': Signer, message': seq<Byte>)
    requires '|' !in s.algorithm && '|' !in s'.algorithm
    requires TagInput(s, message) == TagInput(s', message')
    ensures s.algorithm == s'.algorithm && message == message'
  {
    hide Utf8.Encode;
    var a, b := Utf8.Encode(s.algorithm), Utf8.Encode(s'.algorithm);
    NoBar(s.algorithm);
    NoBar(s'.algorithm);
    FirstBar(a, message, b, message');
    FirstBar(b, message', a, message);
    assert a == TagInput(s, message)[..|a|] && b == TagInput(s', message')[..|b|];
    assert message == TagInput(s, message)[|a| + 1..] && message' == TagInput(s', message')[|b| + 1..];
    Utf8.EncodeInjective(s.algorithm, s'.algorithm);
  }

  lemma FirstBar(a: seq<Byte>, x: seq<Byte>, b: seq<Byte>, y: seq<Byte>)
    requires a + [0x7C] + x == b + [0x7C] + y && forall i | 0 <= i < |a| :: a[i] != 0x7C
    ensures |a| <= |b|
  {
    var t := a + [0x7C] + x;
    assert forall i | 0 <= i < |a| :: t[i] == a[i];
    assert t[|b|] == 0x7C;
  }

  lemma NoBar(s: string)
    requires '|' !in s
    ensures forall i | 0 <= i < |Utf8.Encode(s)| :: Utf8.Encode(s)[i] != 0x7C
  {
    forall i | 0 <= i < |Utf8.Encode(s)|
      ensures Utf8.Encode(s)[i] != 0x7C
    {
      if Utf8.Encode(s)[i] == 0x7C {
        Utf8.ByteMeansChar(s, '|', i);
        assert false;
      }
    }
  }

  function PadByte(pad: seq<Byte>, i: nat): Byte
    requires |pad| == 32
  {
    pad[i % 32]
  }

  /** `tag`, then the pad over and over until `declared` bytes are reached. */
  function Stretched(tag: seq<Byte>, pad: seq<Byte>, declared: nat): (b: seq<Byte>)
    requires |tag| == 48 && |pad| == 32
    ensures |b| == if declared > 48 then declared else 48
    ensures b[..48] == tag
  {
    tag + seq(if declared > 48 then declared - 48 else 0, i requires i >= 0 => PadByte(pad, i))
  }

  method Stretch(tag: seq<Byte>, pad: seq<Byte>, declared: nat) returns (bytes: seq<Byte>)
    requires |tag| == 48 && |pad| == 32
    ensures bytes == Stretched(tag, pad, declared)
  {
    bytes := tag;
    while |bytes| < declared
      invariant 48 <= |bytes| && (|bytes| <= declared || bytes == tag)
      invariant bytes[..48] == tag && forall i | 48 <= i < |bytes| :: bytes[i] == PadByte(pad, i - 48)
      invariant |bytes| < declared ==> (|bytes| - 48) % 32 == 0
    {
      var take := if declared - |bytes| < |pad| then declared - |bytes| else |pad|;
      ExtendPad(bytes, pad, take);
      bytes := bytes + pad[..take];
    }
    assert bytes == Stretched(tag, pad, declared);
  }

  lemma ExtendPad(bytes: seq<Byte>, pad: seq<Byte>, take: nat)
    requires |pad| == 32 && take <= 32 && 48 <= |bytes| && (|bytes| - 48) % 32 == 0
    requires forall i | 48 <= i < |bytes| :: bytes[i] == PadByte(pad, i - 48)
    ensures forall i | 48 <= i < |bytes| + take :: (bytes + pad[..take])[i] == PadByte(pad, i - 48)
  {
    forall i | |bytes| <= i < |bytes| + take
      ensures (bytes + pad[..take])[i] == PadByte(pad, i - 48)
    {
    }
  }

  function Sign(h: Sha, mac: Mac, s: Signer, message: seq<Byte>): Signature {
    var tag := Tag(mac, s, message);
    Signature(s.algorithm, s.keyId, Stretched(tag, Kdf(h, SigPad, [tag]), s.declared))
  }

  /** The verifier holds the signer's secret and recomputes the tag. */
  predicate Verify(mac: Mac, s: Signer, message: seq<Byte>, sig: Signature) {
    && sig.algorithm == s.algorithm && sig.keyId == s.keyId
    && |sig.bytes| >= 48 && sig.bytes[..48] == Tag(mac, s, message)
  }

  /** After its first 48 bytes a signature repeats the pad derived from them. */
  lemma PadRepeats(h: Sha, mac: Mac, s: Signer, message: seq<Byte>, i: nat)
    requires 48 <= i < |Sign(h, mac, s, message).bytes|
    ensures
      var bytes := Sign(h, mac, s, message).bytes;
      bytes[i] == Kdf(h, SigPad, [bytes[..48]])[(i - 48) % 32]
  {
    hide Kdf;
    hide Tag;
    var tag := Tag(mac, s, message);
    StretchedAt(tag, Kdf(h, SigPad, [tag]), s.declared, i);
  }

  lemma StretchedAt(tag: seq<Byte>, pad: seq<Byte>, declared: nat, i: nat)
    requires |tag| == 48 && |pad| == 32 && 48 <= i < |Stretched(tag, pad, declared)|
    ensures Stretched(tag, pad, declared)[i] == pad[(i - 48) % 32]
  {
  }

  /** A signature is accepted exactly when name, key id and the first 48 bytes are those the signer would produce. */
  lemma AcceptsOwn(h: Sha, mac: Mac, s: Signer, message: seq<Byte>, sig: Signature)
    ensures
      var own := Sign(h, mac, s, message);
      Verify(mac, s, message, sig) <==>
        && sig.algorithm == own.algorithm && sig.keyId == own.keyId
        && |sig.bytes| >= 48 && sig.bytes[..48] == own.bytes[..48]
    ensures Sign(h, mac, s, message).algorithm == s.algorithm && Sign(h, mac, s, message).keyId == s.keyId
    ensures Sign(h, mac, s, message).bytes[..48]
         == mac(s.secret, Utf8.Encode(s.algorithm) + Utf8.Encode("|") + message)
  {
    hide Kdf;
    assert Utf8.Encode("|") == [0x7C];
  }

  /** A signature verifies after a round trip through hex, and is as long as declared but never shorter than its tag. */
  lemma SignHexVerify(h: Sha, mac: Mac, s: Signer, message: seq<Byte>)
    ensures
      var sig := Sign(h, mac, s, message);
      && |sig.bytes| == (if s.declared > 48 then s.declared else 48)
      && Hex.Decode(Hex.Encode(sig.bytes)).Ok?
      && Verify(mac, s, message, sig.(bytes := Hex.Decode(Hex.Encode(sig.bytes)).value))
  {
    hide Kdf;
    hide Stretched;
    Hex.RoundTrip(Sign(h, mac, s, message).bytes);
  }

  /** The inputs that the signer gives the MAC for these two messages differ and have one tag. */
  predicate TagsCollide(mac: Mac, s: Signer, m: seq<Byte>, m': seq<Byte>) {
    TagInput(s, m) != TagInput(s, m') && mac(s.secret, TagInput(s, m)) == mac(s.secret, TagInput(s, m'))
  }

  /** A signature accepted for one message is accepted for another exactly if the two collide under the signer's key. */
  lemma SignatureBindsMessage(mac: Mac, s: Signer, m: seq<Byte>, m': seq<Byte>, sig: Signature)
    requires Verify(mac, s, m, sig)
    ensures Verify(mac, s, m', sig) <==> m == m' || TagsCollide(mac, s, m, m')
  {
    var prefix := Utf8.Encode(s.algorithm) + [0x7C];
    assert (prefix + m)[|prefix|..] == m && (prefix + m')[|prefix|..] == m';
  }
}
