// crates/hyper-qrse/src/manifest.rs, keyslot.rs and downgrade.rs: the signed volume
// manifest, its post-quantum-required verification and the downgrade check.
module Manifest {
  import opened Bytes
  import opened Combiner
  import opened Wrappers
  import Crypto
  import Hex

  const QRSD_FORMAT: string := "qrsd-v1"

  datatype KeyslotStatus = Active | DisabledUntilBreakGlass | Retired

  datatype KeyslotKind =
    | Argon2idPassphrase
    | Tpm2Sealed
    | HybridRemoteKms(kem: KemSuite)
    | ThresholdRecovery

  datatype Keyslot = Keyslot(slot: nat, status: KeyslotStatus, kind: KeyslotKind) {
    predicate IsHybrid() { kind.HybridRemoteKms? }

    /** A hybrid slot without a post-quantum leg, or any other slot. */
    predicate ClassicalOnly() { kind.HybridRemoteKms? ==> Blank(kind.kem.pqc) }

    /** A slot that the unlock flow may use. */
    predicate Unlocks() { status.Active? && IsHybrid() && !ClassicalOnly() }
  }

  /** `trim().is_empty()`: the Unicode white space characters. */
  predicate Blank(s: string) {
    forall i | 0 <= i < |s| :: WhiteSpace(s[i] as int)
  }

  predicate WhiteSpace(n: int) {
    0x09 <= n <= 0x0D || n == 0x20 || n == 0x85 || n == 0xA0 || n == 0x1680 || 0x2000 <= n <= 0x200A
    || n == 0x2028 || n == 0x2029 || n == 0x202F || n == 0x205F || n == 0x3000
  }

  /** Everything in a manifest but its signatures; `rest` stands for the sections no decision reads. */
  datatype Body = Body(
    format: string, volumeId: string, policyId: string, minimumVersion: U64, keyslots: seq<Keyslot>, rest: string)

  datatype ManifestSignature = ManifestSignature(
    purpose: string, algorithm: string, keyId: string, signatureRef: string)

  datatype QrsdManifest = QrsdManifest(body: Body, signatures: seq<ManifestSignature>)

  /** `signing_bytes`: some encoding of the body. */
  type Encoding = Body -> seq<Byte>

  datatype Verifier = Verifier(algorithm: string, keyId: string, check: (seq<Byte>, Crypto.Signature) -> bool)

  datatype ManifestError =
    | BadFormat(expected: string, found: string)
    | NoValidSignature
    | InsufficientPostQuantum
    | BadSignatureEncoding(keyId: string, detail: Hex.HexError)

  datatype VerifiedManifest = VerifiedManifest(manifest: QrsdManifest, purposes: seq<string>)

  // ---- One signature ----------------------------------------------------------

  function Lower(s: string): (r: string)
    ensures |r| == |s|
  {
    seq(|s|, i requires 0 <= i < |s| => if 'A' <= s[i] <= 'Z' then (s[i] as int + 32) as char else s[i])
  }

  predicate IsPostQuantum(algorithm: string) {
    "ml-dsa" <= Lower(algorithm) || "slh-dsa" <= Lower(algorithm)
  }

  /** Some verifier of the right key and algorithm accepts the signature over `message`. */
  predicate Accepted(ms: ManifestSignature, message: seq<Byte>, verifiers: seq<Verifier>) {
    var bytes := Hex.Decode(ms.signatureRef);
    bytes.Ok? &&
    exists i | 0 <= i < |verifiers| ::
      && verifiers[i].keyId == ms.keyId && verifiers[i].algorithm == ms.algorithm
      && verifiers[i].check(message, Crypto.Signature(ms.algorithm, ms.keyId, bytes.value))
  }

  predicate AcceptedPostQuantum(ms: ManifestSignature, message: seq<Byte>, verifiers: seq<Verifier>) {
    Accepted(ms, message, verifiers) && IsPostQuantum(ms.algorithm)
  }

  // ---- All signatures ---------------------------------------------------------

  function Malformed(sigs: seq<ManifestSignature>): Option<ManifestError> {
    if sigs == [] then None
    else
      var bytes := Hex.Decode(sigs[0].signatureRef);
      if bytes.Err? then Some(BadSignatureEncoding(sigs[0].keyId, bytes.error)) else Malformed(sigs[1..])
  }

  function Purposes(sigs: seq<ManifestSignature>, message: seq<Byte>, verifiers: seq<Verifier>): seq<string> {
    if sigs == [] then []
    else
      var last := sigs[|sigs| - 1];
      Purposes(sigs[..|sigs| - 1], message, verifiers)
        + if AcceptedPostQuantum(last, message, verifiers) then [last.purpose] else []
  }

  predicate AnyClassical(sigs: seq<ManifestSignature>, message: seq<Byte>, verifiers: seq<Verifier>) {
    exists i | 0 <= i < |sigs| :: Accepted(sigs[i], message, verifiers) && !IsPostQuantum(sigs[i].algorithm)
  }

  function VerifyManifest(encode: Encoding, m: QrsdManifest, verifiers: seq<Verifier>)
    : Result<VerifiedManifest, ManifestError>
  {
    var message := encode(m.body);
    if m.body.format != QRSD_FORMAT then Err(BadFormat(QRSD_FORMAT, m.body.format))
    else if Malformed(m.signatures).Some? then Err(Malformed(m.signatures).value)
    else
      var purposes := Purposes(m.signatures, message, verifiers);
      if purposes != [] then Ok(VerifiedManifest(m, purposes))
      else if AnyClassical(m.signatures, message, verifiers) then Err(InsufficientPostQuantum)
      else Err(NoValidSignature)
  }

  lemma {:induction false} PurposesMean(sigs: seq<ManifestSignature>, message: seq<Byte>, verifiers: seq<Verifier>)
    ensures Purposes(sigs, message, verifiers) != []
       <==> exists i | 0 <= i < |sigs| :: AcceptedPostQuantum(sigs[i], message, verifiers)
  {
    hide AcceptedPostQuantum;
    if sigs != [] {
      var front := sigs[..|sigs| - 1];
      PurposesMean(front, message, verifiers);
      assert AcceptedPostQuantum(sigs[|sigs| - 1], message, verifiers) ==> Purposes(sigs, message, verifiers) != [];
      forall i | 0 <= i < |sigs| && AcceptedPostQuantum(sigs[i], message, verifiers)
        ensures Purposes(sigs, message, verifiers) != []
      {
        assert i < |front| ==> front[i] == sigs[i];
      }
    }
  }

  lemma {:induction false} MalformedMeans(sigs: seq<ManifestSignature>)
    ensures Malformed(sigs) == None <==> forall i | 0 <= i < |sigs| :: Hex.Decode(sigs[i].signatureRef).Ok?
  {
    hide Hex.Decode;
    if sigs != [] {
      MalformedMeans(sigs[1..]);
    }
  }

  /**
   * A manifest verifies exactly when its format is right, every signature is hex and some
   * post-quantum signature is accepted; what is verified is the manifest itself.
   */
  lemma VerifiesExactly(encode: Encoding, m: QrsdManifest, verifiers: seq<Verifier>)
    ensures VerifyManifest(encode, m, verifiers).Ok? <==>
      && m.body.format == QRSD_FORMAT
      && (forall i | 0 <= i < |m.signatures| :: Hex.Decode(m.signatures[i].signatureRef).Ok?)
      && exists i | 0 <= i < |m.signatures| :: AcceptedPostQuantum(m.signatures[i], encode(m.body), verifiers)
    ensures VerifyManifest(encode, m, verifiers).Ok? ==> VerifyManifest(encode, m, verifiers).value.manifest == m
  {
    hide Hex.Decode;
    hide AcceptedPostQuantum;
    PurposesMean(m.signatures, encode(m.body), verifiers);
    MalformedMeans(m.signatures);
  }

  /** Names of either family count in any letter case, and the classical ones the crates use do not. */
  lemma PostQuantumNames(algorithm: string)
    ensures IsPostQuantum("ml-dsa-65") && IsPostQuantum("ML-DSA-87") && IsPostQuantum("SLH-DSA-SHAKE-128s")
    ensures !IsPostQuantum("ed25519") && !IsPostQuantum("ecdsa-p384")
    ensures IsPostQuantum(algorithm) <==> IsPostQuantum(Lower(algorithm))
    ensures |algorithm| < 6 ==> !IsPostQuantum(algorithm)
  {
    var l := Lower(algorithm);
    assert Lower(l) == l;
    assert Lower("ML-DSA-87")[..6] == "ml-dsa" && Lower("SLH-DSA-SHAKE-128s")[..7] == "slh-dsa";
    assert Lower("ml-dsa-65")[..6] == "ml-dsa";
    assert Lower("ed25519")[0] == 'e' && Lower("ecdsa-p384")[0] == 'e';
  }

  /** Verifier `j` vouches for signature `i`: same key id and algorithm, and its check passes over the body's bytes. */
  predicate Vouches(encode: Encoding, m: QrsdManifest, verifiers: seq<Verifier>, i: nat, j: nat) {
    && i < |m.signatures| && j < |verifiers|
    && verifiers[j].keyId == m.signatures[i].keyId && verifiers[j].algorithm == m.signatures[i].algorithm
    && Hex.Decode(m.signatures[i].signatureRef).Ok?
    && verifiers[j].check(
         encode(m.body),
         Crypto.Signature(m.signatures[i].algorithm, m.signatures[i].keyId,
           Hex.Decode(m.signatures[i].signatureRef).value))
  }

  lemma AcceptedMeans(encode: Encoding, m: QrsdManifest, verifiers: seq<Verifier>, i: nat)
    requires i < |m.signatures|
    ensures Accepted(m.signatures[i], encode(m.body), verifiers)
       <==> exists j: nat :: Vouches(encode, m, verifiers, i, j)
  {
    hide Hex.Decode;
    if Accepted(m.signatures[i], encode(m.body), verifiers) {
      var j :| 0 <= j < |verifiers|
        && verifiers[j].keyId == m.signatures[i].keyId && verifiers[j].algorithm == m.signatures[i].algorithm
        && verifiers[j].check(
             encode(m.body),
             Crypto.Signature(m.signatures[i].algorithm, m.signatures[i].keyId,
               Hex.Decode(m.signatures[i].signatureRef).value));
      assert Vouches(encode, m, verifiers, i, j);
    }
  }

  /** The first signature that is not hex. */
  lemma {:induction false} MalformedIsFirst(sigs: seq<ManifestSignature>)
    ensures Malformed(sigs).Some? ==>
      exists i | 0 <= i < |sigs| ::
        && Hex.Decode(sigs[i].signatureRef).Err?
        && Malformed(sigs).value == BadSignatureEncoding(sigs[i].keyId, Hex.Decode(sigs[i].signatureRef).error)
        && forall j | 0 <= j < i :: Hex.Decode(sigs[j].signatureRef).Ok?
  {
    hide Hex.Decode;
    if sigs != [] && Hex.Decode(sigs[0].signatureRef).Ok? && Malformed(sigs).Some? {
      MalformedIsFirst(sigs[1..]);
      var i :| 0 <= i < |sigs| - 1
        && Hex.Decode(sigs[1..][i].signatureRef).Err?
        && Malformed(sigs).value
             == BadSignatureEncoding(sigs[1..][i].keyId, Hex.Decode(sigs[1..][i].signatureRef).error)
        && forall j | 0 <= j < i :: Hex.Decode(sigs[1..][j].signatureRef).Ok?;
      assert forall j | 1 <= j < i + 1 :: sigs[j] == sigs[1..][j - 1];
      assert Hex.Decode(sigs[i + 1].signatureRef).Err?;
    }
  }

  /**
   * Why verification fails: a wrong format, else the first signature that is not hex, else only classical
   * signatures that verify, else none at all.
   */
  lemma VerificationErrors(encode: Encoding, m: QrsdManifest, verifiers: seq<Verifier>)
    requires VerifyManifest(encode, m, verifiers).Err?
    ensures
      var e := VerifyManifest(encode, m, verifiers).error;
      && (e.BadFormat? <==> m.body.format != "qrsd-v1")
      && (e.BadFormat? ==> e == BadFormat("qrsd-v1", m.body.format))
      && (e.BadSignatureEncoding? ==>
            exists i | 0 <= i < |m.signatures| ::
              && Hex.Decode(m.signatures[i].signatureRef).Err?
              && e == BadSignatureEncoding(m.signatures[i].keyId, Hex.Decode(m.signatures[i].signatureRef).error)
              && forall j | 0 <= j < i :: Hex.Decode(m.signatures[j].signatureRef).Ok?)
      && (e.InsufficientPostQuantum? ==>
            && (exists i: nat, j: nat :: Vouches(encode, m, verifiers, i, j))
            && forall i: nat, j: nat | Vouches(encode, m, verifiers, i, j) :: !IsPostQuantum(m.signatures[i].algorithm))
      && (e.NoValidSignature? ==> forall i: nat, j: nat :: !Vouches(encode, m, verifiers, i, j))
  {
    hide Hex.Decode;
    hide Accepted;
    hide Vouches;
    hide IsPostQuantum;
    var message := encode(m.body);
    MalformedIsFirst(m.signatures);
    PurposesMean(m.signatures, message, verifiers);
    forall i | 0 <= i < |m.signatures|
      ensures Accepted(m.signatures[i], message, verifiers) <==> exists j: nat :: Vouches(encode, m, verifiers, i, j)
    {
      AcceptedMeans(encode, m, verifiers, i);
    }
    VouchesInRange(encode, m, verifiers);
    forall i: nat, j: nat | Vouches(encode, m, verifiers, i, j)
      ensures Accepted(m.signatures[i], message, verifiers)
    {
      AcceptedMeans(encode, m, verifiers, i);
    }
    AcceptedIsEither(m.signatures, message, verifiers);
  }

  lemma AcceptedIsEither(sigs: seq<ManifestSignature>, message: seq<Byte>, verifiers: seq<Verifier>)
    ensures (exists i | 0 <= i < |sigs| :: Accepted(sigs[i], message, verifiers))
       <==> (AnyClassical(sigs, message, verifiers)
             || exists i | 0 <= i < |sigs| :: AcceptedPostQuantum(sigs[i], message, verifiers))
  {
    hide Accepted;
    hide IsPostQuantum;
    forall i | 0 <= i < |sigs| && Accepted(sigs[i], message, verifiers)
      ensures AnyClassical(sigs, message, verifiers) || AcceptedPostQuantum(sigs[i], message, verifiers)
    {
      if !IsPostQuantum(sigs[i].algorithm) {
        assert AnyClassical(sigs, message, verifiers);
      }
    }
  }

  lemma VouchesInRange(encode: Encoding, m: QrsdManifest, verifiers: seq<Verifier>)
    ensures forall i: nat, j: nat | Vouches(encode, m, verifiers, i, j) :: i < |m.signatures| && j < |verifiers|
  {
  }

  /**
   * A manifest verifies exactly when its format is right, every signature is hex, and some verifier vouches for
   * a signature by a post-quantum algorithm.
   */
  lemma VerifiesInFields(encode: Encoding, m: QrsdManifest, verifiers: seq<Verifier>)
    ensures VerifyManifest(encode, m, verifiers).Ok? <==>
      && m.body.format == "qrsd-v1"
      && (forall i | 0 <= i < |m.signatures| :: Hex.Decode(m.signatures[i].signatureRef).Ok?)
      && exists i: nat, j: nat :: Vouches(encode, m, verifiers, i, j) && IsPostQuantum(m.signatures[i].algorithm)
  {
    hide Hex.Decode;
    hide Accepted;
    hide Vouches;
    hide IsPostQuantum;
    hide VerifyManifest;
    VerifiesExactly(encode, m, verifiers);
    forall i | 0 <= i < |m.signatures|
      ensures Accepted(m.signatures[i], encode(m.body), verifiers)
         <==> exists j: nat :: Vouches(encode, m, verifiers, i, j)
    {
      AcceptedMeans(encode, m, verifiers, i);
    }
    VouchesInRange(encode, m, verifiers);
  }

  // ---- Signing ----------------------------------------------------------------

  /** `sign`: the signature over the body, in hex, after the others. */
  function Signed(encode: Encoding, m: QrsdManifest, sign: seq<Byte> -> Crypto.Signature, purpose: string)
    : QrsdManifest
  {
    var sig := sign(encode(m.body));
    m.(signatures := m.signatures + [ManifestSignature(purpose, sig.algorithm, sig.keyId, Hex.Encode(sig.bytes))])
  }

  lemma MalformedSnoc(sigs: seq<ManifestSignature>, ms: ManifestSignature)
    requires Hex.Decode(ms.signatureRef).Ok?
    ensures Malformed(sigs + [ms]) == None <==> Malformed(sigs) == None
  {
    hide Hex.Decode;
    var all := sigs + [ms];
    MalformedMeans(sigs);
    MalformedMeans(all);
    assert forall i | 0 <= i < |sigs| :: all[i] == sigs[i];
    assert all[|sigs|] == ms;
  }

  /**
   * Whatever signs again, a verified manifest stays verified; its purposes grow by the new one
   * exactly when the new signature is itself an accepted post-quantum one.
   */
  lemma SigningKeepsVerified(
      encode: Encoding, m: QrsdManifest, verifiers: seq<Verifier>, sign: seq<Byte> -> Crypto.Signature, purpose: string)
    requires VerifyManifest(encode, m, verifiers).Ok?
    ensures
      var m' := Signed(encode, m, sign, purpose);
      var accepted := AcceptedPostQuantum(m'.signatures[|m.signatures|], encode(m.body), verifiers);
      var purposes := VerifyManifest(encode, m, verifiers).value.purposes + (if accepted then [purpose] else []);
      VerifyManifest(encode, m', verifiers) == Ok(VerifiedManifest(m', purposes))
  {
    hide AcceptedPostQuantum;
    hide Hex.Decode;
    var m' := Signed(encode, m, sign, purpose);
    var ms := m'.signatures[|m.signatures|];
    Hex.RoundTrip(sign(encode(m.body)).bytes);
    MalformedSnoc(m.signatures, ms);
    SignatureSnoc(m'.signatures, |m.signatures|, encode(m.body), verifiers);
    assert m'.signatures[..|m.signatures|] == m.signatures && m'.signatures[..|m.signatures| + 1] == m'.signatures;
  }

  /** The verifier of a signer that pads its tags. */
  function VerifierOf(mac: Crypto.Mac, s: Crypto.Signer): Verifier {
    Verifier(s.algorithm, s.keyId, (message, sig) => Crypto.Verify(mac, s, message, sig))
  }

  /** A well-formed manifest verifies once a post-quantum signer whose verifier is trusted has signed it. */
  lemma SignThenVerify(
      encode: Encoding, m: QrsdManifest, h: Sha, mac: Crypto.Mac, s: Crypto.Signer, verifiers: seq<Verifier>,
      i: nat, purpose: string)
    requires m.body.format == QRSD_FORMAT && Malformed(m.signatures) == None
    requires IsPostQuantum(s.algorithm) && i < |verifiers| && verifiers[i] == VerifierOf(mac, s)
    ensures VerifyManifest(encode, Signed(encode, m, x => Crypto.Sign(h, mac, s, x), purpose), verifiers).Ok?
  {
    hide IsPostQuantum;
    hide Hex.Decode;
    hide Crypto.Sign;
    hide Crypto.Verify;
    var message := encode(m.body);
    var sig := Crypto.Sign(h, mac, s, message);
    var m' := Signed(encode, m, x => Crypto.Sign(h, mac, s, x), purpose);
    var ms := m'.signatures[|m.signatures|];
    Crypto.SignHexVerify(h, mac, s, message);
    SignNames(h, mac, s, message);
    MalformedSnoc(m.signatures, ms);
    assert verifiers[i].check(message, Crypto.Signature(ms.algorithm, ms.keyId, Hex.Decode(ms.signatureRef).value));
    assert AcceptedPostQuantum(ms, message, verifiers);
    PurposesMean(m'.signatures, message, verifiers);
  }

  lemma SignNames(h: Sha, mac: Crypto.Mac, s: Crypto.Signer, message: seq<Byte>)
    ensures Crypto.Sign(h, mac, s, message).algorithm == s.algorithm
    ensures Crypto.Sign(h, mac, s, message).keyId == s.keyId
  {
  }

  // ---- The loops --------------------------------------------------------------

  method Verify(encode: Encoding, m: QrsdManifest, verifiers: seq<Verifier>)
    returns (r: Result<VerifiedManifest, ManifestError>)
    ensures r == VerifyManifest(encode, m, verifiers)
  {
    hide Hex.Decode;
    hide IsPostQuantum;
    if m.body.format != QRSD_FORMAT {
      return Err(BadFormat(QRSD_FORMAT, m.body.format));
    }
    var message := encode(m.body);
    var pqPurposes, classicalValid := [], false;
    for k := 0 to |m.signatures|
      invariant Malformed(m.signatures) == Malformed(m.signatures[k..])
      invariant pqPurposes == Purposes(m.signatures[..k], message, verifiers)
      invariant classicalValid == AnyClassical(m.signatures[..k], message, verifiers)
    {
      var ms := m.signatures[k];
      var bytes := Hex.Decode(ms.signatureRef);
      if bytes.Err? {
        return Err(BadSignatureEncoding(ms.keyId, bytes.error));
      }
      var verified := Accepted(ms, message, verifiers);
      SignatureSnoc(m.signatures, k, message, verifiers);
      if verified {
        if IsPostQuantum(ms.algorithm) {
          pqPurposes := pqPurposes + [ms.purpose];
        } else {
          classicalValid := true;
        }
      }
    }
    assert m.signatures[..|m.signatures|] == m.signatures;
    if pqPurposes != [] {
      r := Ok(VerifiedManifest(m, pqPurposes));
    } else if classicalValid {
      r := Err(InsufficientPostQuantum);
    } else {
      r := Err(NoValidSignature);
    }
  }

  lemma SignatureSnoc(sigs: seq<ManifestSignature>, k: nat, message: seq<Byte>, verifiers: seq<Verifier>)
    requires k < |sigs|
    ensures Purposes(sigs[..k + 1], message, verifiers)
         == Purposes(sigs[..k], message, verifiers)
            + if AcceptedPostQuantum(sigs[k], message, verifiers) then [sigs[k].purpose] else []
    ensures AnyClassical(sigs[..k + 1], message, verifiers)
         == (AnyClassical(sigs[..k], message, verifiers)
             || (Accepted(sigs[k], message, verifiers) && !IsPostQuantum(sigs[k].algorithm)))
  {
    hide Accepted;
    hide IsPostQuantum;
    var front, all := sigs[..k], sigs[..k + 1];
    assert all[..|all| - 1] == front && all[k] == sigs[k];
    assert forall i | 0 <= i < k :: all[i] == front[i];
  }

  // ---- Downgrade --------------------------------------------------------------

  datatype VersionFloor = VersionFloor(minimum: U64, requirePqc: bool, allowClassicalOnly: bool) {
    predicate Strict() { requirePqc && !allowClassicalOnly }
  }

  datatype Verdict =
    | NoDowngrade
    | StaleVersion(found: U64, floor: U64)
    | ClassicalOnlyManifest
    | SuiteDowngrade(from: string, to: string)

  function FirstStripped(slots: seq<Keyslot>): Option<Keyslot> {
    if slots == [] then None
    else if slots[0].IsHybrid() && slots[0].ClassicalOnly() then Some(slots[0])
    else FirstStripped(slots[1..])
  }

  function CheckDowngrade(body: Body, floor: VersionFloor, counter: U64): Verdict {
    var found := body.minimumVersion;
    if found < floor.minimum then StaleVersion(found, floor.minimum)
    else if found < counter then StaleVersion(found, counter)
    else if !floor.Strict() then NoDowngrade
    else
      var stripped := FirstStripped(body.keyslots);
      if stripped.Some? && stripped.value.IsHybrid() then
        var kem := stripped.value.kind.kem;
        SuiteDowngrade(kem.classical + "+<pqc-required>+" + kem.combiner, kem.Canonical())
      else if !exists i | 0 <= i < |body.keyslots| :: body.keyslots[i].IsHybrid() then ClassicalOnlyManifest
      else NoDowngrade
  }

  lemma {:induction false} FirstStrippedMeans(slots: seq<Keyslot>)
    ensures FirstStripped(slots) == None
       <==> forall i | 0 <= i < |slots| :: slots[i].IsHybrid() ==> !slots[i].ClassicalOnly()
    ensures FirstStripped(slots).Some? ==> FirstStripped(slots).value.IsHybrid()
    ensures FirstStripped(slots).Some? ==>
      exists i | 0 <= i < |slots| ::
        && slots[i] == FirstStripped(slots).value && slots[i].ClassicalOnly()
        && forall j | 0 <= j < i :: slots[j].IsHybrid() ==> !slots[j].ClassicalOnly()
  {
    if slots != [] {
      FirstStrippedMeans(slots[1..]);
      if !(slots[0].IsHybrid() && slots[0].ClassicalOnly()) && FirstStripped(slots).Some? {
        var i :| 0 <= i < |slots| - 1
          && slots[1..][i] == FirstStripped(slots).value && slots[1..][i].ClassicalOnly()
          && forall j | 0 <= j < i :: slots[1..][j].IsHybrid() ==> !slots[1..][j].ClassicalOnly();
        assert forall j | 1 <= j < i + 1 :: slots[j] == slots[1..][j - 1];
        assert slots[i + 1] == FirstStripped(slots).value;
      }
    }
  }

  /**
   * The check passes exactly for a version at both floors whose keyslots, under a strict
   * policy, include a hybrid one and no hybrid one without its post-quantum leg.
   */
  lemma DowngradeExactly(body: Body, floor: VersionFloor, counter: U64)
    ensures CheckDowngrade(body, floor, counter) == NoDowngrade <==>
      && floor.minimum <= body.minimumVersion && counter <= body.minimumVersion
      && (floor.Strict() ==>
            && (forall i | 0 <= i < |body.keyslots| ::
                  body.keyslots[i].IsHybrid() ==> !body.keyslots[i].ClassicalOnly())
            && exists i | 0 <= i < |body.keyslots| :: body.keyslots[i].IsHybrid())
  {
    FirstStrippedMeans(body.keyslots);
  }

  /**
   * Why the check fails: the manifest's own version against the floor, then against the counter, then the first
   * hybrid slot without its post-quantum leg, then no hybrid slot at all.
   */
  lemma DowngradeVerdicts(body: Body, floor: VersionFloor, counter: U64)
    ensures
      var v := CheckDowngrade(body, floor, counter);
      && (body.minimumVersion < floor.minimum ==> v == StaleVersion(body.minimumVersion, floor.minimum))
      && (floor.minimum <= body.minimumVersion < counter ==> v == StaleVersion(body.minimumVersion, counter))
      && (v.SuiteDowngrade? ==>
            exists i | 0 <= i < |body.keyslots| ::
              && body.keyslots[i].IsHybrid() && body.keyslots[i].ClassicalOnly()
              && v.to == body.keyslots[i].kind.kem.Canonical()
              && v.from == body.keyslots[i].kind.kem.classical + "+<pqc-required>+" + body.keyslots[i].kind.kem.combiner
              && forall j | 0 <= j < i :: body.keyslots[j].IsHybrid() ==> !body.keyslots[j].ClassicalOnly())
      && (v.ClassicalOnlyManifest? ==> forall i | 0 <= i < |body.keyslots| :: !body.keyslots[i].IsHybrid())
  {
    FirstStrippedMeans(body.keyslots);
  }
}
