// crates/hyper-attest/src/pcr.rs, kms.rs and secret.rs: measured-boot registers and the
// key-release decision.
module Attest {
  import opened Bytes
  import opened Wrappers
  import Decimal
  import Receipts

  type Pcr = n: int | 0 <= n < 256

  type PcrBank = map<Pcr, string>

  // ---- PCR banks ----------------------------------------------------------------

  predicate Matches(actual: PcrBank, expected: PcrBank, k: Pcr) {
    k in expected ==> k in actual && actual[k] == expected[k]
  }

  predicate Satisfies(actual: PcrBank, expected: PcrBank) {
    forall k: Pcr :: Matches(actual, expected, k)
  }

  /** Satisfied exactly when every expected register is there with its expected value, whatever else is there. */
  lemma SatisfiesMeans(actual: PcrBank, expected: PcrBank)
    ensures Satisfies(actual, expected) <==> expected.Items <= actual.Items
  {
    if Satisfies(actual, expected) {
      forall item | item in expected.Items
        ensures item in actual.Items
      {
        assert Matches(actual, expected, item.0);
      }
    }
    if expected.Items <= actual.Items {
      forall k: Pcr
        ensures Matches(actual, expected, k)
      {
        assert k in expected ==> (k, expected[k]) in expected.Items;
      }
    }
  }

  /** The registers from `k` on, in ascending order: the first that does not match. */
  function FirstMismatch(actual: PcrBank, expected: PcrBank, k: nat): Option<Pcr>
    requires k <= 256
    decreases 256 - k
  {
    if k == 256 then None
    else if !Matches(actual, expected, k) then Some(k)
    else FirstMismatch(actual, expected, k + 1)
  }

  /** Extra registers are ignored; of those that do not match, the lowest is reported. */
  lemma {:induction false} FirstMismatchIsLeast(actual: PcrBank, expected: PcrBank, k: nat)
    requires k <= 256
    ensures FirstMismatch(actual, expected, k) == None <==> forall i: Pcr | k <= i :: Matches(actual, expected, i)
    ensures FirstMismatch(actual, expected, k).Some? ==>
      var m := FirstMismatch(actual, expected, k).value;
      k <= m && !Matches(actual, expected, m) && forall i: Pcr | k <= i < m :: Matches(actual, expected, i)
    decreases 256 - k
  {
    if k < 256 && Matches(actual, expected, k) {
      FirstMismatchIsLeast(actual, expected, k + 1);
    }
  }

  method FindMismatch(actual: PcrBank, expected: PcrBank) returns (r: Option<Pcr>)
    ensures r == FirstMismatch(actual, expected, 0)
  {
    for k := 0 to 256
      invariant FirstMismatch(actual, expected, 0) == FirstMismatch(actual, expected, k)
    {
      if k in expected {
        if k !in actual || actual[k] != expected[k] {
          return Some(k);
        }
      }
    }
    r := None;
  }

  // ---- The decision -------------------------------------------------------------

  const KMS_POLICY_ID: string := "pol-kms-attested-unlock"

  datatype KeyReleaseRequest = KeyReleaseRequest(
    requestType: string, deviceId: string, vmId: string, capsuleHash: string,
    bootPolicyHash: string, pcrs: PcrBank, hypervisorVersion: U64, nonce: string)

  datatype KmsPolicy = KmsPolicy(
    expectedPcrs: PcrBank, minHypervisorVersion: U64, allowedCapsuleHashes: seq<string>,
    expectedBootPolicyHash: string)

  /** All the conditions of a release. */
  predicate GatesPass(p: KmsPolicy, req: KeyReleaseRequest) {
    && req.bootPolicyHash == p.expectedBootPolicyHash
    && Satisfies(req.pcrs, p.expectedPcrs)
    && req.capsuleHash in p.allowedCapsuleHashes
    && p.minHypervisorVersion <= req.hypervisorVersion
  }

  function DenyReason(p: KmsPolicy, req: KeyReleaseRequest): Option<string> {
    var pcr := FirstMismatch(req.pcrs, p.expectedPcrs, 0);
    if req.bootPolicyHash != p.expectedBootPolicyHash then
      Some("boot_policy_hash_mismatch: expected " + p.expectedBootPolicyHash + ", got " + req.bootPolicyHash)
    else if pcr.Some? then Some("pcr_mismatch: pcr" + Decimal.Print(pcr.value))
    else if req.capsuleHash !in p.allowedCapsuleHashes then Some("capsule_not_allowlisted: " + req.capsuleHash)
    else if req.hypervisorVersion < p.minHypervisorVersion then
      Some("hypervisor_version_below_minimum: " + Decimal.Print(req.hypervisorVersion)
        + " < " + Decimal.Print(p.minHypervisorVersion))
    else None
  }

  /** Nothing is denied exactly when every gate passes. */
  lemma ReleasedExactly(p: KmsPolicy, req: KeyReleaseRequest)
    ensures DenyReason(p, req) == None <==> GatesPass(p, req)
  {
    FirstMismatchIsLeast(req.pcrs, p.expectedPcrs, 0);
  }

  datatype Gate = BootPolicy | Registers | CapsuleHash | Version {
    function Rank(): nat {
      match this
      case BootPolicy => 0
      case Registers => 1
      case CapsuleHash => 2
      case Version => 3
    }

    function Label(): string {
      match this
      case BootPolicy => "boot_policy_hash_mismatch: "
      case Registers => "pcr_mismatch: pcr"
      case CapsuleHash => "capsule_not_allowlisted: "
      case Version => "hypervisor_version_below_minimum: "
    }

    predicate Passes(p: KmsPolicy, req: KeyReleaseRequest) {
      match this
      case BootPolicy => req.bootPolicyHash == p.expectedBootPolicyHash
      case Registers => Satisfies(req.pcrs, p.expectedPcrs)
      case CapsuleHash => req.capsuleHash in p.allowedCapsuleHashes
      case Version => p.minHypervisorVersion <= req.hypervisorVersion
    }
  }

  /** A denial names the first gate that fails; a modified boot policy always comes first. */
  lemma DenialNamesFirstGate(p: KmsPolicy, req: KeyReleaseRequest) returns (g: Gate)
    requires DenyReason(p, req).Some?
    ensures g.Label() <= DenyReason(p, req).value
    ensures !g.Passes(p, req) && forall h: Gate | h.Rank() < g.Rank() :: h.Passes(p, req)
  {
    hide Decimal.Print;
    FirstMismatchIsLeast(req.pcrs, p.expectedPcrs, 0);
    g := if !BootPolicy.Passes(p, req) then BootPolicy
         else if !Registers.Passes(p, req) then Registers
         else if !CapsuleHash.Passes(p, req) then CapsuleHash
         else Version;
  }

  /** The text of a denial, with the values that were compared. */
  lemma DenialTells(p: KmsPolicy, req: KeyReleaseRequest)
    requires DenyReason(p, req).Some?
    ensures
      var text := DenyReason(p, req).value;
      && (req.bootPolicyHash != p.expectedBootPolicyHash ==>
            text == "boot_policy_hash_mismatch: expected " + p.expectedBootPolicyHash + ", got " + req.bootPolicyHash)
      && (req.bootPolicyHash == p.expectedBootPolicyHash && !Satisfies(req.pcrs, p.expectedPcrs) ==>
            exists k: Pcr ::
              && !Matches(req.pcrs, p.expectedPcrs, k) && text == "pcr_mismatch: pcr" + Decimal.Print(k)
              && forall i: Pcr | i < k :: Matches(req.pcrs, p.expectedPcrs, i))
      && (req.bootPolicyHash == p.expectedBootPolicyHash && Satisfies(req.pcrs, p.expectedPcrs)
            && req.capsuleHash !in p.allowedCapsuleHashes ==>
            text == "capsule_not_allowlisted: " + req.capsuleHash)
      && (req.bootPolicyHash == p.expectedBootPolicyHash && Satisfies(req.pcrs, p.expectedPcrs)
            && req.capsuleHash in p.allowedCapsuleHashes ==>
            && req.hypervisorVersion < p.minHypervisorVersion
            && text == "hypervisor_version_below_minimum: " + Decimal.Print(req.hypervisorVersion)
                 + " < " + Decimal.Print(p.minHypervisorVersion))
  {
    hide Decimal.Print;
    FirstMismatchIsLeast(req.pcrs, p.expectedPcrs, 0);
  }

  datatype Decision = Allow(wrappedVmk: seq<Byte>) | Deny(reason: string)

  /** What a simulator is made of: its policy, the request hash and the key wrap. */
  datatype Kms = Kms(
    policy: KmsPolicy, inputsHash: KeyReleaseRequest -> string, wrap: (KmsPolicy, KeyReleaseRequest) -> seq<Byte>)

  function Evaluate(kms: Kms, log: Receipts.Log, req: KeyReleaseRequest): (Receipts.Log, Decision) {
    var reason := DenyReason(kms.policy, req);
    if reason.Some? then
      (log.Append("key_release", req.vmId, "deny", KMS_POLICY_ID, kms.inputsHash(req)), Deny(reason.value))
    else
      (log.Append("key_release", req.vmId, "allow", KMS_POLICY_ID, kms.inputsHash(req)),
       Allow(kms.wrap(kms.policy, req)))
  }

  /** Every decision leaves exactly one receipt that says what was decided, and keeps a valid chain valid. */
  lemma EvaluateIsRecorded(kms: Kms, log: Receipts.Log, req: KeyReleaseRequest)
    ensures
      var (log', d) := Evaluate(kms, log, req);
      var n := |log.receipts|;
      && |log'.receipts| == n + 1 && log'.receipts[..n] == log.receipts
      && log'.receipts[n].body.event == "key_release" && log'.receipts[n].body.subject == req.vmId
      && log'.receipts[n].body.policyId == "pol-kms-attested-unlock"
      && log'.receipts[n].body.inputsHash == kms.inputsHash(req)
      && log'.receipts[n].body.decision == (if GatesPass(kms.policy, req) then "allow" else "deny")
      && (d.Allow? <==> GatesPass(kms.policy, req))
      && (d.Allow? ==> d.wrappedVmk == kms.wrap(kms.policy, req))
      && (log.Valid() <==> log'.Valid())
  {
    hide GatesPass;
    ReleasedExactly(kms.policy, req);
    var decision := if GatesPass(kms.policy, req) then "allow" else "deny";
    Receipts.AppendVerifies(
      log.hash, log.genesis, log.receipts, "key_release", req.vmId, decision, KMS_POLICY_ID, kms.inputsHash(req));
  }

  /** The gate results in the evidence of an allowed release. */
  datatype Evidence = Evidence(pcrMatch: bool, bootPolicyMatch: bool, capsuleAllowlisted: bool, versionOk: bool)

  function UnlockEvidence(kms: Kms, req: KeyReleaseRequest, d: Decision): Option<Evidence> {
    if d.Deny? then None
    else
      Some(Evidence(
        FirstMismatch(req.pcrs, kms.policy.expectedPcrs, 0).None?,
        req.bootPolicyHash == kms.policy.expectedBootPolicyHash,
        req.capsuleHash in kms.policy.allowedCapsuleHashes,
        req.hypervisorVersion >= kms.policy.minHypervisorVersion))
  }

  /** Evidence of the simulator's own decision never shows a failed gate. */
  lemma EvidenceIsPositive(kms: Kms, log: Receipts.Log, req: KeyReleaseRequest)
    ensures
      var evidence := UnlockEvidence(kms, req, Evaluate(kms, log, req).1);
      evidence == if GatesPass(kms.policy, req) then Some(Evidence(true, true, true, true)) else None
  {
    ReleasedExactly(kms.policy, req);
    FirstMismatchIsLeast(req.pcrs, kms.policy.expectedPcrs, 0);
  }

  method EvaluateRequest(kms: Kms, req: KeyReleaseRequest, chain: Receipts.ReceiptChain) returns (d: Decision)
    modifies chain
    ensures (chain.Value(), d) == Evaluate(kms, old(chain.Value()), req)
  {
    var inputsHash := kms.inputsHash(req);
    var reason := DenyReason(kms.policy, req);
    match reason
    case Some(text) =>
      var _ := chain.Append("key_release", req.vmId, "deny", KMS_POLICY_ID, inputsHash);
      d := Deny(text);
    case None =>
      var _ := chain.Append("key_release", req.vmId, "allow", KMS_POLICY_ID, inputsHash);
      d := Allow(kms.wrap(kms.policy, req));
  }

  // ---- The secret handle --------------------------------------------------------

  class SecretHandle {
    const bytes: array<Byte>

    constructor (bytes: array<Byte>)
      ensures this.bytes == bytes
    {
      this.bytes := bytes;
    }

    /** Every byte is overwritten, and the length stays. */
    method Zeroize()
      modifies bytes
      ensures bytes[..] == Zeros(bytes.Length)
    {
      for i := 0 to bytes.Length
        invariant bytes[..i] == Zeros(i)
      {
        bytes[i] := 0;
        assert bytes[..i + 1] == bytes[..i] + [0];
      }
      assert bytes[..bytes.Length] == bytes[..];
    }
  }
}
