// The launch gates: manifest verification and `check_launch` of
// crates/hyper-capsule/src/lib.rs, and the engine of crates/hyper-policy/src/engine.rs.
module Capsule {
  import opened Bytes
  import opened Wrappers
  import Attest

  // ---- Manifests ----------------------------------------------------------------

  datatype ManifestSignature = ManifestSignature(alg: string, keyId: string)

  datatype UntrustedManifest = UntrustedManifest(
    vmId: string, imageHash: string, hypervisorMin: U64, bootPolicyVersion: U64,
    maxMb: U64, vcpus: nat, signatures: seq<ManifestSignature>)

  datatype SignatureStatus = Unverified | Valid | Invalid

  datatype PolicyStatus = Unchecked | Pass | Fail

  datatype VerifiedManifest = VerifiedManifest(
    inner: UntrustedManifest, signature: SignatureStatus, policy: PolicyStatus)

  datatype CapsuleError =
    | Unreadable(text: string)
    | NoSignatures
    | SignatureNotValid(status: SignatureStatus)
    | HypervisorTooOld(runtime: U64, minimum: U64)
    | BootPolicyRollback(found: U64, minimum: U64)

  predicate AllowedAlg(alg: string) {
    alg == "ecdsa-p384" || alg == "ed25519" || alg == "ml-dsa-65"
  }

  /** Some signature has an accepted algorithm and a trusted key. */
  predicate Trusted(m: UntrustedManifest, keys: seq<string>) {
    exists i | 0 <= i < |m.signatures| :: AllowedAlg(m.signatures[i].alg) && m.signatures[i].keyId in keys
  }

  function VerifyManifest(m: UntrustedManifest, keys: seq<string>, version: U64, tenantMin: U64)
    : Result<VerifiedManifest, CapsuleError>
  {
    if m.signatures == [] then Err(NoSignatures)
    else if !Trusted(m, keys) then Err(SignatureNotValid(Invalid))
    else if version < m.hypervisorMin then Err(HypervisorTooOld(version, m.hypervisorMin))
    else if m.bootPolicyVersion < tenantMin then Err(BootPolicyRollback(m.bootPolicyVersion, tenantMin))
    else Ok(VerifiedManifest(m, Valid, Pass))
  }

  // ---- Capsules -----------------------------------------------------------------

  datatype VmPolicy = VmPolicy(
    tenantMinBootPolicy: U64, memoryBudgetMb: U64, keyUnwrapAuthorized: bool,
    devicePolicyOk: bool, measuredBoot: bool, debugConsole: bool)

  datatype KeyPlan = KeyPlan(
    deviceId: string, capsuleHash: string, bootPolicyHash: string, pcrs: Attest.PcrBank, nonce: string)

  datatype Capsule = Capsule(
    capsuleId: string, manifest: VerifiedManifest, vcpus: nat, maxMb: U64, disks: nat, nics: nat,
    passthrough: seq<string>, policy: VmPolicy, plan: KeyPlan)
  {
    function VmId(): string { manifest.inner.vmId }

    function ImageHash(): string { manifest.inner.imageHash }
  }

  // ---- The policy engine --------------------------------------------------------

  datatype PolicyDocument = PolicyDocument(
    policyId: string, minimumVersion: U64, requireSigned: bool, requireMeasuredBoot: bool,
    allowPassthrough: bool, allowDebugConsole: bool)

  datatype DenyReason = UnsignedManifest | PassthroughForbidden | StaleHypervisor | DebugForbidden | Other(text: string)

  datatype PolicyDecision = Allow | Deny(reason: DenyReason) | RequireApproval(challenge: string)

  function EvaluateLaunch(doc: PolicyDocument, version: U64, signed: bool, p: VmPolicy): PolicyDecision {
    if version < doc.minimumVersion then Deny(StaleHypervisor)
    else if doc.requireSigned && !signed then Deny(UnsignedManifest)
    else if doc.requireMeasuredBoot && !p.measuredBoot then Deny(Other("measured boot required"))
    else if p.debugConsole && !doc.allowDebugConsole then Deny(DebugForbidden)
    else Allow
  }

  function EvaluateAssignment(doc: PolicyDocument, passthrough: bool): PolicyDecision {
    if passthrough && !doc.allowPassthrough then Deny(PassthroughForbidden) else Allow
  }

  // ---- The launch gate ----------------------------------------------------------

  datatype GateError =
    | DebugOverride
    | GateSignature(status: SignatureStatus)
    | GatePolicy(policyStatus: PolicyStatus)
    | ImageHashMismatch(expectedImage: string, foundImage: string)
    | GateHypervisor(runtime: U64, minimum: U64)
    | GateRollback(found: U64, minimum: U64)
    | KeyUnwrapNotAuthorized
    | DevicePolicyDenied
    | MemoryOverBudget(requested: U64, budget: U64)

  datatype LaunchContext = LaunchContext(
    version: U64, tenantMinBootPolicy: U64, expectedImageHash: string, keyUnwrapAuthorized: bool,
    devicePolicyOk: bool, memoryBudgetMb: U64, debugOverride: bool)

  datatype LaunchApproval = LaunchApproval(vmId: string, imageHash: string)

  function CheckLaunch(vm: VerifiedManifest, ctx: LaunchContext): Result<LaunchApproval, GateError> {
    var m := vm.inner;
    if ctx.debugOverride then Err(DebugOverride)
    else if vm.signature != Valid then Err(GateSignature(vm.signature))
    else if vm.policy != Pass then Err(GatePolicy(vm.policy))
    else if m.imageHash != ctx.expectedImageHash then Err(ImageHashMismatch(ctx.expectedImageHash, m.imageHash))
    else if ctx.version < m.hypervisorMin then Err(GateHypervisor(ctx.version, m.hypervisorMin))
    else if m.bootPolicyVersion < ctx.tenantMinBootPolicy then
      Err(GateRollback(m.bootPolicyVersion, ctx.tenantMinBootPolicy))
    else if !ctx.keyUnwrapAuthorized then Err(KeyUnwrapNotAuthorized)
    else if !ctx.devicePolicyOk then Err(DevicePolicyDenied)
    else if m.maxMb > ctx.memoryBudgetMb then Err(MemoryOverBudget(m.maxMb, ctx.memoryBudgetMb))
    else Ok(LaunchApproval(m.vmId, m.imageHash))
  }

  /** The context in which the runtime asks the gate: the image is compared with itself, no override. */
  function LaunchContextOf(c: Capsule, version: U64): LaunchContext {
    LaunchContext(
      version, c.policy.tenantMinBootPolicy, c.ImageHash(), c.policy.keyUnwrapAuthorized,
      c.policy.devicePolicyOk, c.policy.memoryBudgetMb, false)
  }

  /** What the organisation's policy asks of a launch. */
  predicate EngineAllows(doc: PolicyDocument, version: U64, c: Capsule) {
    && doc.minimumVersion <= version
    && (doc.requireSigned ==> c.manifest.signature == Valid)
    && (doc.requireMeasuredBoot ==> c.policy.measuredBoot)
    && (c.policy.debugConsole ==> doc.allowDebugConsole)
  }

  /** What the launch gate asks of a capsule. */
  predicate GateAllows(version: U64, c: Capsule) {
    var m := c.manifest.inner;
    && c.manifest.signature == Valid && c.manifest.policy == Pass
    && m.hypervisorMin <= version
    && c.policy.tenantMinBootPolicy <= m.bootPolicyVersion
    && c.policy.keyUnwrapAuthorized && c.policy.devicePolicyOk
    && m.maxMb <= c.policy.memoryBudgetMb
  }

  /** The gate's conditions in the order it asks them. */
  predicate Condition(k: nat, vm: VerifiedManifest, ctx: LaunchContext) {
    match k
    case 0 => !ctx.debugOverride
    case 1 => vm.signature == Valid
    case 2 => vm.policy == Pass
    case 3 => vm.inner.imageHash == ctx.expectedImageHash
    case 4 => vm.inner.hypervisorMin <= ctx.version
    case 5 => ctx.tenantMinBootPolicy <= vm.inner.bootPolicyVersion
    case 6 => ctx.keyUnwrapAuthorized
    case 7 => ctx.devicePolicyOk
    case 8 => vm.inner.maxMb <= ctx.memoryBudgetMb
    case _ => true
  }

  /** The error for condition `k`, with the values that break it. */
  predicate Reports(k: nat, e: GateError, vm: VerifiedManifest, ctx: LaunchContext) {
    match k
    case 0 => e == DebugOverride
    case 1 => e == GateSignature(vm.signature)
    case 2 => e == GatePolicy(vm.policy)
    case 3 => e == ImageHashMismatch(ctx.expectedImageHash, vm.inner.imageHash)
    case 4 => e == GateHypervisor(ctx.version, vm.inner.hypervisorMin)
    case 5 => e == GateRollback(vm.inner.bootPolicyVersion, ctx.tenantMinBootPolicy)
    case 6 => e == KeyUnwrapNotAuthorized
    case 7 => e == DevicePolicyDenied
    case 8 => e == MemoryOverBudget(vm.inner.maxMb, ctx.memoryBudgetMb)
    case _ => false
  }

  /** Launch is approved, for that machine and image, exactly when all hold; else the first broken one is named. */
  lemma GateReportsFirst(vm: VerifiedManifest, ctx: LaunchContext)
    ensures CheckLaunch(vm, ctx).Ok? <==> forall k: nat :: Condition(k, vm, ctx)
    ensures CheckLaunch(vm, ctx).Ok? ==>
      CheckLaunch(vm, ctx).value == LaunchApproval(vm.inner.vmId, vm.inner.imageHash)
    ensures CheckLaunch(vm, ctx).Err? ==>
      exists k: nat ::
        && !Condition(k, vm, ctx) && Reports(k, CheckLaunch(vm, ctx).error, vm, ctx)
        && forall j: nat | j < k :: Condition(j, vm, ctx)
  {
    var r := CheckLaunch(vm, ctx);
    if r.Err? {
      var k: nat := match r.error
        case DebugOverride => 0
        case GateSignature(_) => 1
        case GatePolicy(_) => 2
        case ImageHashMismatch(_, _) => 3
        case GateHypervisor(_, _) => 4
        case GateRollback(_, _) => 5
        case KeyUnwrapNotAuthorized => 6
        case DevicePolicyDenied => 7
        case MemoryOverBudget(_, _) => 8;
      assert !Condition(k, vm, ctx) && Reports(k, r.error, vm, ctx);
    }
  }

  /** The engine's denial names the first of its four conditions that is broken. */
  lemma EngineReportsFirst(doc: PolicyDocument, version: U64, signed: bool, p: VmPolicy)
    ensures
      var d := EvaluateLaunch(doc, version, signed, p);
      && (d == Deny(StaleHypervisor) <==> version < doc.minimumVersion)
      && (d == Deny(UnsignedManifest) <==> doc.minimumVersion <= version && doc.requireSigned && !signed)
      && (doc.minimumVersion <= version && (doc.requireSigned ==> signed) ==>
            (d == Deny(Other("measured boot required")) <==> doc.requireMeasuredBoot && !p.measuredBoot))
      && (d == Deny(DebugForbidden) ==> p.debugConsole && !doc.allowDebugConsole)
      && (p.debugConsole && !doc.allowDebugConsole ==> d.Deny?)
      && !d.RequireApproval?
  {
  }

  /** Everything that must hold of a capsule before it counts as verified. */
  predicate Cleared(doc: PolicyDocument, version: U64, c: Capsule) {
    EngineAllows(doc, version, c) && GateAllows(version, c)
  }

  /** The engine allows exactly what the policy asks, and the gate exactly what the capsule must meet. */
  lemma ClearedExactly(doc: PolicyDocument, version: U64, c: Capsule)
    ensures EvaluateLaunch(doc, version, c.manifest.signature == Valid, c.policy) == Allow
       <==> EngineAllows(doc, version, c)
    ensures CheckLaunch(c.manifest, LaunchContextOf(c, version)).Ok? <==> GateAllows(version, c)
  {
  }
}
