// crates/hyper-qrse/src/combiner.rs: the hybrid key combiner and what it binds.
//
// SHA-384 and HKDF are any functions; a result that needs them to be collision
// free hands back the collision.
module Combiner {
  import opened Bytes
  import opened Framing
  import opened Wrappers
  import Utf8

  datatype CryptoError =
    | EmptySharedSecret
    | Decapsulation
    | BadKeyLength(expected: nat, got: nat)
    | HkdfError

  type Secret = s: seq<Byte> | |s| == 32 witness Zeros(32)

  predicate IsLive(s: Secret) {
    exists i | 0 <= i < 32 :: s[i] != 0
  }

  // ---- Suites -----------------------------------------------------------------

  datatype KemSuite = KemSuite(classical: string, pqc: string, combiner: string) {
    function Canonical(): string {
      classical + "+" + pqc + "+" + combiner
    }

    predicate PlusFree() {
      '+' !in classical && '+' !in pqc && '+' !in combiner
    }
  }

  lemma PlusCount(s: KemSuite)
    ensures multiset(s.Canonical())['+']
         == multiset(s.classical)['+'] + multiset(s.pqc)['+'] + multiset(s.combiner)['+'] + 2
  {
    assert s.Canonical() == s.classical + (['+'] + (s.pqc + (['+'] + s.combiner)));
  }

  lemma PlusNotBefore(a: string, x: string, b: string, y: string)
    requires '+' !in b && a + ['+'] + x == b + ['+'] + y
    ensures |b| <= |a|
  {
    assert (a + ['+'] + x)[|a|] == '+';
    assert forall i | 0 <= i < |b| :: (b + ['+'] + y)[i] == b[i];
  }

  lemma PlusPeel(a: string, x: string, b: string, y: string)
    requires '+' !in a && '+' !in b && a + ['+'] + x == b + ['+'] + y
    ensures a == b && x == y
  {
    PlusNotBefore(a, x, b, y);
    PlusNotBefore(b, y, a, x);
    var u, v := a + ['+'] + x, b + ['+'] + y;
    assert u[..|a|] == a && v[..|b|] == b;
    assert u[|a| + 1..] == x && v[|b| + 1..] == y;
  }

  lemma TwinPlusFree(s: KemSuite, t: KemSuite)
    requires s.PlusFree() && t.Canonical() == s.Canonical()
    ensures t.PlusFree()
  {
    PlusCount(s);
    PlusCount(t);
  }

  lemma SuiteReads(s: KemSuite, t: KemSuite)
    requires s.PlusFree() && t.Canonical() == s.Canonical()
    ensures t == s
  {
    TwinPlusFree(s, t);
    var x, y := s.pqc + ['+'] + s.combiner, t.pqc + ['+'] + t.combiner;
    assert s.Canonical() == s.classical + ['+'] + x && t.Canonical() == t.classical + ['+'] + y;
    PlusPeel(s.classical, x, t.classical, y);
    PlusPeel(s.pqc, s.combiner, t.pqc, t.combiner);
  }

  lemma PlusSplits(x: string) returns (a: string, b: string)
    requires '+' in x
    ensures x == a + "+" + b
  {
    var i :| 0 <= i < |x| && x[i] == '+';
    a, b := x[..i], x[i + 1..];
  }

  /** A suite with a plus sign in a component has a twin. */
  lemma SuiteTwin(s: KemSuite) returns (t: KemSuite)
    requires !s.PlusFree()
    ensures t != s && t.Canonical() == s.Canonical()
  {
    if '+' in s.classical {
      var a, b := PlusSplits(s.classical);
      t := KemSuite(a, b + "+" + s.pqc, s.combiner);
    } else if '+' in s.pqc {
      var a, b := PlusSplits(s.pqc);
      t := KemSuite(s.classical + "+" + a, b, s.combiner);
    } else {
      var a, b := PlusSplits(s.combiner);
      t := KemSuite(s.classical, s.pqc + "+" + a, b);
    }
  }

  /** The canonical form names one suite exactly when no component contains a plus sign. */
  lemma CanonicalUnambiguous(s: KemSuite)
    ensures (forall t: KemSuite | t.Canonical() == s.Canonical() :: t == s) <==> s.PlusFree()
  {
    if s.PlusFree() {
      forall t: KemSuite | t.Canonical() == s.Canonical()
        ensures t == s
      {
        SuiteReads(s, t);
      }
    } else {
      var t := SuiteTwin(s);
      assert t.Canonical() == s.Canonical();
    }
  }

  // ---- The context ------------------------------------------------------------

  datatype Context = Context(
    volumeId: string, deviceId: string, policyId: string, policyVersion: U64,
    suite: KemSuite, bootMeasurement: string)
  {
    function Parts(): seq<seq<Byte>> {
      [ Utf8.Encode(volumeId), Utf8.Encode(deviceId), Utf8.Encode(policyId),
        BigEndian(policyVersion, 8), Utf8.Encode(suite.Canonical()), Utf8.Encode(bootMeasurement) ]
    }

    predicate Fits() {
      forall p | p in Parts() :: InMemory(p)
    }
  }

  function ContextBytes(c: Context): seq<Byte> {
    Frames(c.Parts())
  }

  /** Equal encodings bind every field; the suite through its canonical form. */
  lemma ContextBinds(a: Context, b: Context)
    requires a.Fits() && b.Fits() && ContextBytes(a) == ContextBytes(b)
    ensures a.volumeId == b.volumeId && a.deviceId == b.deviceId && a.policyId == b.policyId
    ensures a.policyVersion == b.policyVersion && a.bootMeasurement == b.bootMeasurement
    ensures a.suite.Canonical() == b.suite.Canonical()
    ensures a.suite.PlusFree() ==> a == b
  {
    FramesInjective(a.Parts(), b.Parts());
    var p, q := a.Parts(), b.Parts();
    assert p[0] == q[0] && p[1] == q[1] && p[2] == q[2] && p[3] == q[3] && p[4] == q[4] && p[5] == q[5];
    Utf8.EncodeInjective(a.volumeId, b.volumeId);
    Utf8.EncodeInjective(a.deviceId, b.deviceId);
    Utf8.EncodeInjective(a.policyId, b.policyId);
    BigEndian8Injective(a.policyVersion, b.policyVersion);
    Utf8.EncodeInjective(a.suite.Canonical(), b.suite.Canonical());
    Utf8.EncodeInjective(a.bootMeasurement, b.bootMeasurement);
    if a.suite.PlusFree() {
      SuiteReads(a.suite, b.suite);
    }
  }

  method PutFrame(ghost parts: seq<seq<Byte>>, ghost k: nat, out: seq<Byte>, s: seq<Byte>) returns (r: seq<Byte>)
    requires k < |parts| && parts[k] == s && out == Frames(parts[..k])
    ensures r == Frames(parts[..k + 1])
  {
    FramesSnoc(parts[..k], s);
    assert parts[..k + 1] == parts[..k] + [s];
    r := out + BigEndian(|s|, 8);
    r := r + s;
    assert r == out + Frame(s);
  }

  method ContextToBytes(c: Context) returns (out: seq<Byte>)
    ensures out == ContextBytes(c)
  {
    ghost var parts := c.Parts();
    out := PutFrame(parts, 0, [], Utf8.Encode(c.volumeId));
    out := PutFrame(parts, 1, out, Utf8.Encode(c.deviceId));
    out := PutFrame(parts, 2, out, Utf8.Encode(c.policyId));
    out := PutFrame(parts, 3, out, BigEndian(c.policyVersion, 8));
    out := PutFrame(parts, 4, out, Utf8.Encode(c.suite.Canonical()));
    out := PutFrame(parts, 5, out, Utf8.Encode(c.bootMeasurement));
    assert parts[..6] == parts;
  }

  // ---- The combiner -----------------------------------------------------------

  type Sha = h: seq<Byte> -> seq<Byte> | forall x: seq<Byte> :: |h(x)| == 48
    ghost witness _ => Zeros(48)

  /** Salt, input key material, info and output length to output key material. */
  type Hkdf = f: (seq<Byte>, seq<Byte>, seq<Byte>, nat) -> seq<Byte>
    | forall salt: seq<Byte>, ikm: seq<Byte>, info: seq<Byte>, n: nat :: |f(salt, ikm, info, n)| == n
    ghost witness (_: seq<Byte>, _: seq<Byte>, _: seq<Byte>, n: nat) => Zeros(n)

  /** `b"storage-unlock-v1"`. */
  const LABEL: seq<Byte> :=
    [0x73, 0x74, 0x6F, 0x72, 0x61, 0x67, 0x65, 0x2D, 0x75, 0x6E, 0x6C, 0x6F, 0x63, 0x6B, 0x2D, 0x76, 0x31]

  /** The most that HKDF-SHA384 can expand to, by section 2.3 of RFC 5869. */
  const MAX_OUTPUT: nat := 255 * 48

  function Info(c: Context): seq<Byte> {
    LABEL + ContextBytes(c)
  }

  lemma LabelText()
    ensures LABEL == Utf8.Encode("storage-unlock-v1")
  {
    hide Utf8.Encode;
    var s := "storage-unlock-v1";
    assert |s| == |LABEL| && forall i | 0 <= i < |s| :: s[i] as int == LABEL[i];
    Utf8.AsciiIsItself(s);
  }

  /** The info is the label and six frames: volume, device, policy, version, suite text and measurement. */
  lemma InfoWritten(c: Context)
    ensures Info(c) == LABEL
      + (Frame(Utf8.Encode(c.volumeId)) + Frame(Utf8.Encode(c.deviceId)) + Frame(Utf8.Encode(c.policyId))
         + Frame(BigEndian(c.policyVersion, 8))
         + Frame(Utf8.Encode(c.suite.classical + "+" + c.suite.pqc + "+" + c.suite.combiner))
         + Frame(Utf8.Encode(c.bootMeasurement)))
  {
    hide Frame;
    hide Frames;
    hide Utf8.Encode;
    hide BigEndian;
    SixFrames(c.Parts());
  }

  function HybridCombine(
      sha: Sha, hkdf: Hkdf, classical: Secret, pqc: Secret, transcript: seq<Byte>, c: Context, n: nat)
    : Result<seq<Byte>, CryptoError>
  {
    if !IsLive(classical) || !IsLive(pqc) then Err(EmptySharedSecret)
    else if n > MAX_OUTPUT then Err(HkdfError)
    else Ok(hkdf(sha(transcript), classical + pqc, Info(c), n))
  }

  /** The inputs of the derivation determine both secrets and everything in the context. */
  lemma DerivationInputsBind(a: Secret, b: Secret, c: Context, a': Secret, b': Secret, c': Context)
    requires c.Fits() && c'.Fits()
    requires a + b == a' + b' && Info(c) == Info(c')
    ensures a == a' && b == b' && ContextBytes(c) == ContextBytes(c')
    ensures c.(suite := c'.suite) == c' && c.suite.Canonical() == c'.suite.Canonical()
    ensures c.suite.PlusFree() ==> c == c'
  {
    assert (a + b)[..32] == a && (a' + b')[..32] == a';
    assert (a + b)[32..] == b && (a' + b')[32..] == b';
    assert Info(c)[|LABEL|..] == ContextBytes(c) && Info(c')[|LABEL|..] == ContextBytes(c');
    ContextBinds(c, c');
  }

  /** What HKDF is given. */
  datatype KekInput = KekInput(salt: seq<Byte>, ikm: seq<Byte>, info: seq<Byte>)

  function KekInputOf(sha: Sha, a: Secret, b: Secret, t: seq<Byte>, c: Context): KekInput {
    KekInput(sha(t), a + b, Info(c))
  }

  /** HKDF gives one key for these two inputs. */
  predicate KeysCollide(hkdf: Hkdf, x: KekInput, y: KekInput, n: nat) {
    x != y && hkdf(x.salt, x.ikm, x.info, n) == hkdf(y.salt, y.ikm, y.info, n)
  }

  /**
   * Changing a secret, the transcript digest or anything bound in the context changes the key, or the
   * two inputs given to HKDF collide.
   */
  lemma KekBindsInputs(
      sha: Sha, hkdf: Hkdf, a: Secret, b: Secret, t: seq<Byte>, c: Context,
      a': Secret, b': Secret, t': seq<Byte>, c': Context, n: nat)
    requires c.Fits() && c'.Fits()
    requires HybridCombine(sha, hkdf, a, b, t, c, n).Ok?
    requires HybridCombine(sha, hkdf, a, b, t, c, n) == HybridCombine(sha, hkdf, a', b', t', c', n)
    ensures KeysCollide(hkdf, KekInputOf(sha, a, b, t, c), KekInputOf(sha, a', b', t', c'), n)
      || (a == a' && b == b' && sha(t) == sha(t') && c.(suite := c'.suite) == c'
          && c.suite.Canonical() == c'.suite.Canonical())
  {
    hide ContextBytes;
    if KekInputOf(sha, a, b, t, c) == KekInputOf(sha, a', b', t', c') {
      DerivationInputsBind(a, b, c, a', b', c');
    }
  }

  method Combine(sha: Sha, hkdf: Hkdf, classical: Secret, pqc: Secret, transcript: seq<Byte>, c: Context, n: nat)
    returns (r: Result<seq<Byte>, CryptoError>)
    ensures r == HybridCombine(sha, hkdf, classical, pqc, transcript, c, n)
    ensures r.Ok? <==> IsLive(classical) && IsLive(pqc) && n <= MAX_OUTPUT
    ensures r.Ok? ==> |r.value| == n
  {
    hide ContextBytes;
    if !IsLive(classical) || !IsLive(pqc) {
      return Err(EmptySharedSecret);
    }
    var salt := sha(transcript);
    var ikm: seq<Byte> := [];
    ikm := ikm + classical;
    ikm := ikm + pqc;
    var info: seq<Byte> := [];
    info := info + LABEL;
    var bytes := ContextToBytes(c);
    info := info + bytes;
    assert ikm == classical + pqc && info == Info(c);
    if n > MAX_OUTPUT {
      return Err(HkdfError);
    }
    r := Ok(hkdf(salt, ikm, info, n));
  }
}
