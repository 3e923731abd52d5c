// crates/hyper-qrse/src/unlock.rs: the gated path from a signed manifest to a key.
module Unlock {
  import opened Attest
  import opened Bytes
  import opened Manifest
  import opened Wrappers
  import opened Framing
  import Combiner
  import Decimal
  import Receipts
  import Utf8

  const QRSE_UNLOCK_POLICY_ID: string := "pol-qrse-attested-hybrid-unlock"
  const KEK_LEN: nat := 32

  datatype BootMeasurement = BootMeasurement(bootPolicyHash: string, capsuleManifestHash: string, pcrs: PcrBank)

  datatype KemLeg = KemLeg(dk: seq<Byte>, ct: seq<Byte>)

  type Decapsulate = (seq<Byte>, seq<Byte>) -> Result<Combiner.Secret, Combiner.CryptoError>

  datatype Request = Request(
    manifest: QrsdManifest, boot: BootMeasurement, deviceId: string, hypervisorVersion: U64,
    verifiers: seq<Verifier>, floor: VersionFloor, counter: U64, classicalLeg: KemLeg, pqcLeg: KemLeg)

  /** The primitives the flow is run with. */
  datatype Env = Env(
    encode: Encoding, digest: seq<Byte> -> string, sha: Combiner.Sha, hkdf: Combiner.Hkdf,
    classical: Decapsulate, pqc: Decapsulate, kms: Kms)

  datatype UnlockError =
    | ManifestVerification(manifestError: ManifestError)
    | Downgrade(verdict: Verdict)
    | AttestationDenied(reason: string)
    | NoHybridKeyslot
    | Crypto(cryptoError: Combiner.CryptoError)

  // ---- The flow as a function -----------------------------------------------------

  function FirstUnlocking(slots: seq<Keyslot>): Option<Combiner.KemSuite> {
    if slots == [] then None
    else if slots[0].Unlocks() then Some(slots[0].kind.kem)
    else FirstUnlocking(slots[1..])
  }

  function ReleaseRequest(req: Request): KeyReleaseRequest {
    var body := req.manifest.body;
    KeyReleaseRequest(
      "key_release", req.deviceId, body.volumeId, req.boot.capsuleManifestHash, req.boot.bootPolicyHash,
      req.boot.pcrs, req.hypervisorVersion, body.volumeId + ":" + Decimal.Print(body.minimumVersion))
  }

  function ContextOf(req: Request, suite: Combiner.KemSuite): Combiner.Context {
    var body := req.manifest.body;
    Combiner.Context(
      body.volumeId, req.deviceId, body.policyId, body.minimumVersion, suite, req.boot.bootPolicyHash)
  }

  /** Decapsulation of both legs and the hybrid combination. */
  function DeriveKek(env: Env, req: Request, suite: Combiner.KemSuite): Result<seq<Byte>, Combiner.CryptoError> {
    var a := env.classical(req.classicalLeg.dk, req.classicalLeg.ct);
    if a.Err? then Err(a.error)
    else
      var b := env.pqc(req.pqcLeg.dk, req.pqcLeg.ct);
      if b.Err? then Err(b.error)
      else
        Combiner.HybridCombine(
          env.sha, env.hkdf, a.value, b.value, env.encode(req.manifest.body), ContextOf(req, suite), KEK_LEN)
  }

  function InputsHash(env: Env, req: Request): string {
    env.digest(env.encode(req.manifest.body))
  }

  function Recorded(env: Env, req: Request, log: Receipts.Log, decision: string): Receipts.Log {
    log.Append("key_release", req.manifest.body.volumeId, decision, QRSE_UNLOCK_POLICY_ID, InputsHash(env, req))
  }

  /** The gates before the key service is asked. */
  function EarlyError(env: Env, req: Request): Option<UnlockError> {
    var verified := VerifyManifest(env.encode, req.manifest, req.verifiers);
    if verified.Err? then Some(ManifestVerification(verified.error))
    else
      var verdict := CheckDowngrade(req.manifest.body, req.floor, req.counter);
      if verdict != NoDowngrade then Some(Downgrade(verdict))
      else if FirstUnlocking(req.manifest.body.keyslots).None? then Some(NoHybridKeyslot)
      else None
  }

  function Stage(e: UnlockError): string {
    match e
    case ManifestVerification(_) => "manifest_verification"
    case Downgrade(_) => "downgrade"
    case _ => "no_hybrid_keyslot"
  }

  function Unlock(env: Env, req: Request, log: Receipts.Log): (Receipts.Log, Result<seq<Byte>, UnlockError>) {
    var early := EarlyError(env, req);
    if early.Some? then (Recorded(env, req, log, "deny:" + Stage(early.value)), Err(early.value))
    else
      var (log1, decision) := Evaluate(env.kms, log, ReleaseRequest(req));
      match decision
      case Deny(reason) => (log1, Err(AttestationDenied(reason)))
      case Allow(_) =>
        var suite := FirstUnlocking(req.manifest.body.keyslots);
        if suite.None? then (log1, Err(NoHybridKeyslot))
        else
          var kek := DeriveKek(env, req, suite.value);
          if kek.Err? then (log1, Err(Crypto(kek.error)))
          else (Recorded(env, req, log1, "allow"), Ok(kek.value))
  }

  // ---- Which gates ----------------------------------------------------------------

  lemma {:induction false} FirstUnlockingMeans(slots: seq<Keyslot>)
    ensures FirstUnlocking(slots).Some? <==> exists i | 0 <= i < |slots| :: slots[i].Unlocks()
    ensures FirstUnlocking(slots).Some? ==>
      exists i | 0 <= i < |slots| ::
        && slots[i].Unlocks() && slots[i].kind.kem == FirstUnlocking(slots).value
        && forall j | 0 <= j < i :: !slots[j].Unlocks()
  {
    if slots != [] {
      FirstUnlockingMeans(slots[1..]);
      if !slots[0].Unlocks() && FirstUnlocking(slots).Some? {
        var i :| 0 <= i < |slots| - 1
          && slots[1..][i].Unlocks() && slots[1..][i].kind.kem == FirstUnlocking(slots).value
          && forall j | 0 <= j < i :: !slots[1..][j].Unlocks();
        assert forall j | 1 <= j < i + 1 :: slots[j] == slots[1..][j - 1];
        assert slots[i + 1].Unlocks();
      }
    }
  }

  /** What decapsulation gives for both legs is there and not all zero. */
  predicate BothLegsLive(env: Env, req: Request) {
    var a := env.classical(req.classicalLeg.dk, req.classicalLeg.ct);
    var b := env.pqc(req.pqcLeg.dk, req.pqcLeg.ct);
    a.Ok? && b.Ok? && Combiner.IsLive(a.value) && Combiner.IsLive(b.value)
  }

  lemma DerivesExactly(env: Env, req: Request, suite: Combiner.KemSuite)
    ensures DeriveKek(env, req, suite).Ok? <==> BothLegsLive(env, req)
  {
    hide Combiner.Info;
  }

  /** The key service is asked about the request's own device, measurement and version, for the manifest's volume. */
  lemma AsksForRequest(env: Env, req: Request)
    ensures
      var r := ReleaseRequest(req);
      && r.requestType == "key_release" && r.deviceId == req.deviceId && r.vmId == req.manifest.body.volumeId
      && r.nonce == req.manifest.body.volumeId + ":" + Decimal.Print(req.manifest.body.minimumVersion)
    ensures GatesPass(env.kms.policy, ReleaseRequest(req)) <==>
      && req.boot.bootPolicyHash == env.kms.policy.expectedBootPolicyHash
      && Satisfies(req.boot.pcrs, env.kms.policy.expectedPcrs)
      && req.boot.capsuleManifestHash in env.kms.policy.allowedCapsuleHashes
      && env.kms.policy.minHypervisorVersion <= req.hypervisorVersion
  {
    hide Decimal.Print;
  }

  /** A key comes out exactly when every gate passes. */
  lemma UnlocksExactly(env: Env, req: Request, log: Receipts.Log)
    ensures Unlock(env, req, log).1.Ok? <==>
      && VerifyManifest(env.encode, req.manifest, req.verifiers).Ok?
      && CheckDowngrade(req.manifest.body, req.floor, req.counter) == NoDowngrade
      && (exists i | 0 <= i < |req.manifest.body.keyslots| :: req.manifest.body.keyslots[i].Unlocks())
      && req.boot.bootPolicyHash == env.kms.policy.expectedBootPolicyHash
      && Satisfies(req.boot.pcrs, env.kms.policy.expectedPcrs)
      && req.boot.capsuleManifestHash in env.kms.policy.allowedCapsuleHashes
      && env.kms.policy.minHypervisorVersion <= req.hypervisorVersion
      && BothLegsLive(env, req)
  {
    hide VerifyManifest;
    hide CheckDowngrade;
    hide GatesPass;
    hide DeriveKek;
    hide BothLegsLive;
    hide DenyReason;
    var slots := req.manifest.body.keyslots;
    FirstUnlockingMeans(slots);
    AsksForRequest(env, req);
    ReleasedExactly(env.kms.policy, ReleaseRequest(req));
    if FirstUnlocking(slots).Some? {
      DerivesExactly(env, req, FirstUnlocking(slots).value);
    }
  }

  /**
   * Which error a request without a key gets: the manifest's, the downgrade, the missing slot, the key service's,
   * the classical leg's, the post-quantum leg's, and last that of a secret that is all zero.
   */
  lemma UnlockErrors(env: Env, req: Request, log: Receipts.Log)
    requires Unlock(env, req, log).1.Err?
    ensures
      var e := Unlock(env, req, log).1.error;
      var verified := VerifyManifest(env.encode, req.manifest, req.verifiers);
      var verdict := CheckDowngrade(req.manifest.body, req.floor, req.counter);
      var reason := DenyReason(env.kms.policy, ReleaseRequest(req));
      var a := env.classical(req.classicalLeg.dk, req.classicalLeg.ct);
      var b := env.pqc(req.pqcLeg.dk, req.pqcLeg.ct);
      if verified.Err? then e == ManifestVerification(verified.error)
      else if verdict != NoDowngrade then e == Downgrade(verdict)
      else if forall i | 0 <= i < |req.manifest.body.keyslots| :: !req.manifest.body.keyslots[i].Unlocks() then
        e == NoHybridKeyslot
      else if reason.Some? then e == AttestationDenied(reason.value)
      else if a.Err? then e == Crypto(a.error)
      else if b.Err? then e == Crypto(b.error)
      else (!Combiner.IsLive(a.value) || !Combiner.IsLive(b.value)) && e == Crypto(Combiner.EmptySharedSecret)
  {
    hide VerifyManifest;
    hide CheckDowngrade;
    hide DenyReason;
    hide FirstUnlocking;
    hide Combiner.IsLive;
    hide Combiner.Info;
    hide Recorded;
    FirstUnlockingMeans(req.manifest.body.keyslots);
  }

  // ---- Which receipts -------------------------------------------------------------

  /** The part of a receipt that tells who decided what about whom. */
  datatype Entry = Entry(policyId: string, decision: string, inputsHash: string)

  predicate Says(r: Receipts.Receipt, volumeId: string, e: Entry) {
    r.body.event == "key_release" && r.body.subject == volumeId
    && r.body.policyId == e.policyId && r.body.decision == e.decision && r.body.inputsHash == e.inputsHash
  }

  lemma DenialText(e: UnlockError)
    requires e.ManifestVerification? || e.Downgrade? || e.NoHybridKeyslot?
    ensures "deny:" + Stage(e) == match e
      case ManifestVerification(_) => "deny:manifest_verification"
      case Downgrade(_) => "deny:downgrade"
      case _ => "deny:no_hybrid_keyslot"
  {
  }

  /** The receipts that an outcome must leave behind, in order, each with the hash of what was decided on. */
  function Trail(env: Env, req: Request, result: Result<seq<Byte>, UnlockError>): seq<Entry> {
    var asked := env.kms.inputsHash(ReleaseRequest(req));
    var signed := env.digest(env.encode(req.manifest.body));
    match result
    case Ok(_) => [Entry(KMS_POLICY_ID, "allow", asked), Entry(QRSE_UNLOCK_POLICY_ID, "allow", signed)]
    case Err(AttestationDenied(_)) => [Entry(KMS_POLICY_ID, "deny", asked)]
    case Err(Crypto(_)) => [Entry(KMS_POLICY_ID, "allow", asked)]
    case Err(ManifestVerification(_)) => [Entry(QRSE_UNLOCK_POLICY_ID, "deny:manifest_verification", signed)]
    case Err(Downgrade(_)) => [Entry(QRSE_UNLOCK_POLICY_ID, "deny:downgrade", signed)]
    case Err(NoHybridKeyslot) => [Entry(QRSE_UNLOCK_POLICY_ID, "deny:no_hybrid_keyslot", signed)]
  }

  lemma AppendIsValid(
      log: Receipts.Log, event: string, subject: string, decision: string, policyId: string, hash: string)
    ensures log.Valid() <==> log.Append(event, subject, decision, policyId, hash).Valid()
  {
    Receipts.AppendVerifies(log.hash, log.genesis, log.receipts, event, subject, decision, policyId, hash);
  }

  /** `after` extends `before` by receipts that say what `trail` says. */
  ghost predicate Extends(
      before: seq<Receipts.Receipt>, after: seq<Receipts.Receipt>, volumeId: string, trail: seq<Entry>)
  {
    && |after| == |before| + |trail|
    && (forall i | 0 <= i < |before| :: after[i] == before[i])
    && forall i | 0 <= i < |trail| :: Says(after[|before| + i], volumeId, trail[i])
  }

  lemma AppendExtends(log: Receipts.Log, volumeId: string, decision: string, policyId: string, hash: string)
    ensures
      var log' := log.Append("key_release", volumeId, decision, policyId, hash);
      Extends(log.receipts, log'.receipts, volumeId, [Entry(policyId, decision, hash)])
  {
  }

  lemma ExtendTwice(
      a: seq<Receipts.Receipt>, b: seq<Receipts.Receipt>, c: seq<Receipts.Receipt>, volumeId: string,
      x: Entry, y: Entry)
    requires Extends(a, b, volumeId, [x]) && Extends(b, c, volumeId, [y])
    ensures Extends(a, c, volumeId, [x, y])
  {
    assert c[|a|] == b[|a|] && Says(b[|a| + 0], volumeId, [x][0]);
    assert Says(c[|b| + 0], volumeId, [y][0]);
  }

  lemma EvaluateExtends(kms: Kms, log: Receipts.Log, req: KeyReleaseRequest)
    ensures
      var (log', d) := Evaluate(kms, log, req);
      Extends(log.receipts, log'.receipts, req.vmId,
        [Entry(KMS_POLICY_ID, if d.Allow? then "allow" else "deny", kms.inputsHash(req))])
  {
    hide DenyReason;
    var decision := if DenyReason(kms.policy, req).Some? then "deny" else "allow";
    AppendExtends(log, req.vmId, decision, KMS_POLICY_ID, kms.inputsHash(req));
  }

  /**
   * Whatever the outcome, the chain grows by exactly the receipts of that outcome: two allows for
   * a key, one denial for a gate, the key service's allow alone when the cryptography fails.
   */
  lemma UnlockLeavesTrail(env: Env, req: Request, log: Receipts.Log)
    ensures
      var (log', result) := Unlock(env, req, log);
      Extends(log.receipts, log'.receipts, req.manifest.body.volumeId, Trail(env, req, result))
  {
    hide VerifyManifest;
    hide CheckDowngrade;
    hide DeriveKek;
    hide FirstUnlocking;
    hide Evaluate;
    hide Extends;
    hide Stage;
    hide GatesPass;
    hide Satisfies;
    hide Receipts.Entry;
    hide ReleaseRequest;
    var volumeId := req.manifest.body.volumeId;
    var early := EarlyError(env, req);
    if early.Some? {
      DenialText(early.value);
      AppendExtends(log, volumeId, "deny:" + Stage(early.value), QRSE_UNLOCK_POLICY_ID, InputsHash(env, req));
    } else {
      AsksForRequest(env, req);
      EvaluateExtends(env.kms, log, ReleaseRequest(req));
      var log1 := Evaluate(env.kms, log, ReleaseRequest(req)).0;
      if Unlock(env, req, log).1.Ok? {
        AppendExtends(log1, volumeId, "allow", QRSE_UNLOCK_POLICY_ID, InputsHash(env, req));
        ExtendTwice(log.receipts, log1.receipts, Recorded(env, req, log1, "allow").receipts, volumeId,
          Entry(KMS_POLICY_ID, "allow", env.kms.inputsHash(ReleaseRequest(req))),
          Entry(QRSE_UNLOCK_POLICY_ID, "allow", InputsHash(env, req)));
      }
    }
  }

  /** The chain verifies afterwards exactly when it did before. */
  lemma UnlockKeepsChainValid(env: Env, req: Request, log: Receipts.Log)
    ensures log.Valid() <==> Unlock(env, req, log).0.Valid()
  {
    hide VerifyManifest;
    hide CheckDowngrade;
    hide DeriveKek;
    hide InputsHash;
    hide FirstUnlocking;
    hide GatesPass;
    var early := EarlyError(env, req);
    var volumeId, hash := req.manifest.body.volumeId, InputsHash(env, req);
    if early.Some? {
      AppendIsValid(log, "key_release", volumeId, "deny:" + Stage(early.value), QRSE_UNLOCK_POLICY_ID, hash);
    } else {
      EvaluateIsRecorded(env.kms, log, ReleaseRequest(req));
      var log1 := Evaluate(env.kms, log, ReleaseRequest(req)).0;
      AppendIsValid(log1, "key_release", volumeId, "allow", QRSE_UNLOCK_POLICY_ID, hash);
    }
  }

  // ---- What a key is bound to -------------------------------------------------------

  /** What the two legs of a request decapsulate to. */
  predicate Legs(env: Env, req: Request, a: Combiner.Secret, b: Combiner.Secret) {
    && env.classical(req.classicalLeg.dk, req.classicalLeg.ct) == Ok(a)
    && env.pqc(req.pqcLeg.dk, req.pqcLeg.ct) == Ok(b)
  }

  lemma KeyComesFrom(env: Env, req: Request, log: Receipts.Log)
    returns (suite: Combiner.KemSuite, a: Combiner.Secret, b: Combiner.Secret)
    requires Unlock(env, req, log).1.Ok?
    ensures FirstUnlocking(req.manifest.body.keyslots) == Some(suite) && Legs(env, req, a, b)
    ensures Combiner.HybridCombine(
        env.sha, env.hkdf, a, b, env.encode(req.manifest.body), ContextOf(req, suite), KEK_LEN)
      == Ok(Unlock(env, req, log).1.value)
  {
    hide VerifyManifest;
    hide CheckDowngrade;
    hide Evaluate;
    hide Combiner.HybridCombine;
    hide ContextOf;
    suite := FirstUnlocking(req.manifest.body.keyslots).value;
    a := env.classical(req.classicalLeg.dk, req.classicalLeg.ct).value;
    b := env.pqc(req.pqcLeg.dk, req.pqcLeg.ct).value;
  }

  /** What HKDF is given for a request whose suite and secrets are these. */
  function InputOf(env: Env, req: Request, suite: Combiner.KemSuite, a: Combiner.Secret, b: Combiner.Secret)
    : Combiner.KekInput
  {
    Combiner.KekInputOf(env.sha, a, b, env.encode(req.manifest.body), ContextOf(req, suite))
  }

  /** What HKDF is given, written out from the request: the digest of the signed body, both secrets, and six frames. */
  lemma InputWritten(env: Env, req: Request, suite: Combiner.KemSuite, a: Combiner.Secret, b: Combiner.Secret)
    ensures
      var body := req.manifest.body;
      var input := InputOf(env, req, suite, a, b);
      && input.salt == env.sha(env.encode(body))
      && input.ikm == a + b
      && input.info == Combiner.LABEL
           + (Frame(Utf8.Encode(body.volumeId)) + Frame(Utf8.Encode(req.deviceId)) + Frame(Utf8.Encode(body.policyId))
              + Frame(BigEndian(body.minimumVersion, 8))
              + Frame(Utf8.Encode(suite.classical + "+" + suite.pqc + "+" + suite.combiner))
              + Frame(Utf8.Encode(req.boot.bootPolicyHash)))
  {
    hide Frame;
    hide Utf8.Encode;
    hide BigEndian;
    hide Combiner.Info;
    Combiner.InfoWritten(ContextOf(req, suite));
  }

  /** The key is HKDF of that input. */
  lemma KeyIsDerived(env: Env, req: Request, log: Receipts.Log)
    returns (suite: Combiner.KemSuite, a: Combiner.Secret, b: Combiner.Secret)
    requires Unlock(env, req, log).1.Ok?
    ensures FirstUnlocking(req.manifest.body.keyslots) == Some(suite) && Legs(env, req, a, b)
    ensures
      var input := InputOf(env, req, suite, a, b);
      Unlock(env, req, log).1.value == env.hkdf(input.salt, input.ikm, input.info, 32)
  {
    hide Unlock;
    hide Legs;
    hide Combiner.Info;
    suite, a, b := KeyComesFrom(env, req, log);
  }

  /** This key is HKDF of the request's own secrets and fields, for its first unlocking slot. */
  predicate KeyFor(env: Env, req: Request, key: seq<Byte>) {
    var body := req.manifest.body;
    var a := env.classical(req.classicalLeg.dk, req.classicalLeg.ct);
    var b := env.pqc(req.pqcLeg.dk, req.pqcLeg.ct);
    && a.Ok? && b.Ok? && FirstUnlocking(body.keyslots).Some?
    && var suite := FirstUnlocking(body.keyslots).value;
    && key == env.hkdf(
         env.sha(env.encode(body)), a.value + b.value,
         Combiner.LABEL
           + (Frame(Utf8.Encode(body.volumeId)) + Frame(Utf8.Encode(req.deviceId)) + Frame(Utf8.Encode(body.policyId))
              + Frame(BigEndian(body.minimumVersion, 8))
              + Frame(Utf8.Encode(suite.classical + "+" + suite.pqc + "+" + suite.combiner))
              + Frame(Utf8.Encode(req.boot.bootPolicyHash))),
         32)
  }

  lemma KeyIsFor(env: Env, req: Request, log: Receipts.Log)
    requires Unlock(env, req, log).1.Ok?
    ensures KeyFor(env, req, Unlock(env, req, log).1.value)
  {
    hide Unlock;
    hide InputOf;
    hide FirstUnlocking;
    hide Frame;
    hide Utf8.Encode;
    hide BigEndian;
    var suite, a, b := KeyIsDerived(env, req, log);
    InputWritten(env, req, suite, a, b);
  }

  /**
   * Two unlocks that give one key were for the same secrets, device, volume, policy, version, measurement,
   * suite and manifest digest, or their own two inputs to HKDF collide.
   */
  lemma KeyIsBound(env: Env, a: Request, b: Request, log: Receipts.Log, log': Receipts.Log)
    returns (s: Combiner.KemSuite, x: Combiner.Secret, y: Combiner.Secret,
             s': Combiner.KemSuite, x': Combiner.Secret, y': Combiner.Secret)
    requires Unlock(env, a, log).1.Ok? && Unlock(env, a, log).1 == Unlock(env, b, log').1
    requires forall suite: Combiner.KemSuite | suite in Suites(a) + Suites(b) ::
      ContextOf(a, suite).Fits() && ContextOf(b, suite).Fits()
    ensures FirstUnlocking(a.manifest.body.keyslots) == Some(s) && Legs(env, a, x, y)
    ensures FirstUnlocking(b.manifest.body.keyslots) == Some(s') && Legs(env, b, x', y')
    ensures
      || Combiner.KeysCollide(env.hkdf, InputOf(env, a, s, x, y), InputOf(env, b, s', x', y'), KEK_LEN)
      || (x == x' && y == y' && a.deviceId == b.deviceId
          && a.manifest.body.volumeId == b.manifest.body.volumeId
          && a.manifest.body.policyId == b.manifest.body.policyId
          && a.manifest.body.minimumVersion == b.manifest.body.minimumVersion
          && a.boot.bootPolicyHash == b.boot.bootPolicyHash
          && s.Canonical() == s'.Canonical()
          && env.sha(env.encode(a.manifest.body)) == env.sha(env.encode(b.manifest.body)))
  {
    hide Unlock;
    hide Legs;
    hide Combiner.HybridCombine;
    hide Combiner.KeysCollide;
    s, x, y := KeyComesFrom(env, a, log);
    s', x', y' := KeyComesFrom(env, b, log');
    FirstIsListed(a.manifest.body.keyslots);
    FirstIsListed(b.manifest.body.keyslots);
    Combiner.KekBindsInputs(
      env.sha, env.hkdf, x, y, env.encode(a.manifest.body), ContextOf(a, s),
      x', y', env.encode(b.manifest.body), ContextOf(b, s'), KEK_LEN);
  }

  /** Different bodies have different signed bytes. */
  ghost predicate Injective(encode: Encoding) {
    forall x: Body, y: Body | encode(x) == encode(y) :: x == y
  }

  /**
   * With such an encoding one key means one manifest body, or the two signed texts collide, or the
   * two HKDF inputs do.
   */
  lemma KeyMeansOneBody(env: Env, a: Request, b: Request, log: Receipts.Log, log': Receipts.Log)
    returns (s: Combiner.KemSuite, x: Combiner.Secret, y: Combiner.Secret,
             s': Combiner.KemSuite, x': Combiner.Secret, y': Combiner.Secret)
    requires Injective(env.encode)
    requires Unlock(env, a, log).1.Ok? && Unlock(env, a, log).1 == Unlock(env, b, log').1
    requires forall suite: Combiner.KemSuite | suite in Suites(a) + Suites(b) ::
      ContextOf(a, suite).Fits() && ContextOf(b, suite).Fits()
    ensures FirstUnlocking(a.manifest.body.keyslots) == Some(s) && Legs(env, a, x, y)
    ensures FirstUnlocking(b.manifest.body.keyslots) == Some(s') && Legs(env, b, x', y')
    ensures
      var p, q := env.encode(a.manifest.body), env.encode(b.manifest.body);
      || a.manifest.body == b.manifest.body
      || (p != q && env.sha(p) == env.sha(q))
      || Combiner.KeysCollide(env.hkdf, InputOf(env, a, s, x, y), InputOf(env, b, s', x', y'), KEK_LEN)
  {
    hide Unlock;
    hide Legs;
    hide InputOf;
    hide Combiner.KeysCollide;
    s, x, y, s', x', y' := KeyIsBound(env, a, b, log, log');
  }

  /** The suites of a manifest's keyslots. */
  function Suites(req: Request): set<Combiner.KemSuite> {
    SuitesOf(req.manifest.body.keyslots)
  }

  function SuitesOf(slots: seq<Keyslot>): set<Combiner.KemSuite> {
    set s | s in slots && s.IsHybrid() :: s.kind.kem
  }

  lemma FirstIsListed(slots: seq<Keyslot>)
    ensures FirstUnlocking(slots).Some? ==> FirstUnlocking(slots).value in SuitesOf(slots)
  {
    FirstUnlockingMeans(slots);
  }

  // ---- Versions ---------------------------------------------------------------------

  predicate Accepts(env: Env, req: Request, log: Receipts.Log) {
    Unlock(env, req, log).1.Ok?
  }

  /** Each attempt's counter is at least every version accepted before it. */
  predicate CounterKept(env: Env, reqs: seq<Request>, logs: seq<Receipts.Log>)
    requires |logs| == |reqs|
  {
    forall i, j | 0 <= i < j < |reqs| && Accepts(env, reqs[i], logs[i]) ::
      reqs[i].manifest.body.minimumVersion <= reqs[j].counter
  }

  /** With such a counter, accepted versions never decrease, and no rolled-back manifest is accepted. */
  lemma VersionsNeverDecrease(env: Env, reqs: seq<Request>, logs: seq<Receipts.Log>, i: nat, j: nat)
    requires |logs| == |reqs| && CounterKept(env, reqs, logs) && i < j < |reqs|
    requires Accepts(env, reqs[i], logs[i]) && Accepts(env, reqs[j], logs[j])
    ensures reqs[i].manifest.body.minimumVersion <= reqs[j].manifest.body.minimumVersion
  {
    hide Unlock;
    UnlocksExactly(env, reqs[j], logs[j]);
    DowngradeExactly(reqs[j].manifest.body, reqs[j].floor, reqs[j].counter);
  }

  // ---- The flow as a method ---------------------------------------------------------

  method AttestedHybridUnlock(env: Env, req: Request, chain: Receipts.ReceiptChain)
    returns (r: Result<seq<Byte>, UnlockError>)
    modifies chain
    ensures (chain.Value(), r) == Unlock(env, req, old(chain.Value()))
    ensures r.Ok? ==> KeyFor(env, req, r.value)
  {
    hide KeyFor;
    hide VerifyManifest;
    hide CheckDowngrade;
    hide DenyReason;
    hide Combiner.HybridCombine;
    hide Receipts.Entry;
    var body := req.manifest.body;
    var inputsHash := env.digest(env.encode(body));
    var verified := Verify(env.encode, req.manifest, req.verifiers);
    if verified.Err? {
      RecordDeny(chain, body.volumeId, inputsHash, "manifest_verification");
      return Err(ManifestVerification(verified.error));
    }
    var verdict := CheckDowngrade(body, req.floor, req.counter);
    if verdict != NoDowngrade {
      RecordDeny(chain, body.volumeId, inputsHash, "downgrade");
      return Err(Downgrade(verdict));
    }
    var suite := FirstUnlocking(body.keyslots);
    if suite.None? {
      RecordDeny(chain, body.volumeId, inputsHash, "no_hybrid_keyslot");
      return Err(NoHybridKeyslot);
    }
    var decision := EvaluateRequest(env.kms, ReleaseRequest(req), chain);
    if decision.Deny? {
      return Err(AttestationDenied(decision.reason));
    }
    var classical := env.classical(req.classicalLeg.dk, req.classicalLeg.ct);
    if classical.Err? {
      return Err(Crypto(classical.error));
    }
    var pqc := env.pqc(req.pqcLeg.dk, req.pqcLeg.ct);
    if pqc.Err? {
      return Err(Crypto(pqc.error));
    }
    var kek := Combiner.Combine(
      env.sha, env.hkdf, classical.value, pqc.value, env.encode(body), ContextOf(req, suite.value), KEK_LEN);
    if kek.Err? {
      return Err(Crypto(kek.error));
    }
    var _ := chain.Append("key_release", body.volumeId, "allow", QRSE_UNLOCK_POLICY_ID, inputsHash);
    r := Ok(kek.value);
    KeyIsFor(env, req, old(chain.Value()));
  }

  method RecordDeny(chain: Receipts.ReceiptChain, volumeId: string, inputsHash: string, stage: string)
    modifies chain
    ensures chain.Value()
         == old(chain.Value()).Append("key_release", volumeId, "deny:" + stage, QRSE_UNLOCK_POLICY_ID, inputsHash)
  {
    var _ := chain.Append("key_release", volumeId, "deny:" + stage, QRSE_UNLOCK_POLICY_ID, inputsHash);
  }
}
