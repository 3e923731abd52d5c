// crates/hyper-vm/src/runtime.rs: the typed lifecycle. Every transition is a function of
// the receipt log and the state it consumes; the class drives them over one chain.
module Runtime {
  import opened Bytes
  import opened Capsule
  import opened Wrappers
  import Attest
  import Decimal
  import DeviceTypes
  import Devices
  import Mm
  import Receipts
  import Scheduler
  import Vcpu

  type Log = Receipts.Log

  datatype VmError =
    | PolicyDenied(decision: PolicyDecision)
    | LaunchGate(gate: GateError)
    | Memory(error: Mm.MmError)
    | KeyReleaseDenied(reason: string)
    | PassthroughDenied(device: string, decision: PolicyDecision)
    | Device(devError: DeviceTypes.DevError)

  /** What a runtime is built from. */
  datatype Env = Env(doc: PolicyDocument, kms: Attest.Kms, version: U64, digest: string -> string)

  // ---- Receipts of the lifecycle --------------------------------------------------

  datatype Event =
    | VmDefine | ManifestVerify | VmPrepare | KeyRelease | DeviceAssign
    | VmLaunch | VmPause | Snapshot | VmStop | Destroy
  {
    function Name(): string {
      match this
      case VmDefine => "vm_define"
      case ManifestVerify => "manifest_verify"
      case VmPrepare => "vm_prepare"
      case KeyRelease => "key_release"
      case DeviceAssign => "device_assign"
      case VmLaunch => "vm_launch"
      case VmPause => "vm_pause"
      case Snapshot => "snapshot"
      case VmStop => "vm_stop"
      case Destroy => "destroy"
    }
  }

  function Note(env: Env, log: Log, e: Event, id: string, decision: string, text: string): Log {
    log.Append(e.Name(), id, decision, env.doc.policyId, env.digest(text))
  }

  datatype Mark = Mark(event: string, decision: string)

  function MarkOf(e: Event, decision: string): Mark { Mark(e.Name(), decision) }

  /** The receipts about `id` since it was last defined. */
  function TrailOf(rs: seq<Receipts.Receipt>, id: string): seq<Mark> {
    if rs == [] then []
    else
      var body := rs[|rs| - 1].body;
      var before := TrailOf(rs[..|rs| - 1], id);
      if body.subject != id then before
      else if body.event == VmDefine.Name() then [Mark(body.event, body.decision)]
      else before + [Mark(body.event, body.decision)]
  }

  lemma OnlyDefineIsDefine(e: Event)
    ensures e.Name() == VmDefine.Name() <==> e == VmDefine
  {
    if e.Name() == VmDefine.Name() {
      assert |e.Name()| == 9 && e.Name()[3] == 'd';
    }
  }

  lemma AppendTrail(
      log: Log, event: string, subject: string, decision: string, policyId: string, hash: string, id: string)
    ensures
      var before := TrailOf(log.receipts, id);
      TrailOf(log.Append(event, subject, decision, policyId, hash).receipts, id)
        == if subject != id then before
           else if event == VmDefine.Name() then [Mark(event, decision)]
           else before + [Mark(event, decision)]
  {
    hide Event.Name;
    var rs := log.Append(event, subject, decision, policyId, hash).receipts;
    assert rs[..|rs| - 1] == log.receipts;
  }

  lemma NoteTrail(env: Env, log: Log, e: Event, subject: string, decision: string, text: string, id: string)
    ensures
      var before := TrailOf(log.receipts, id);
      TrailOf(Note(env, log, e, subject, decision, text).receipts, id)
        == if subject != id then before
           else if e == VmDefine then [MarkOf(e, decision)]
           else before + [MarkOf(e, decision)]
  {
    hide Event.Name;
    OnlyDefineIsDefine(e);
    AppendTrail(log, e.Name(), subject, decision, env.doc.policyId, env.digest(text), id);
  }

  /** The log only grows, and stays valid. */
  ghost predicate Grows(before: Log, after: Log) {
    && after.hash == before.hash && after.genesis == before.genesis
    && before.receipts <= after.receipts
    && (before.Valid() <==> after.Valid())
  }

  lemma AppendGrows(log: Log, event: string, subject: string, decision: string, policyId: string, hash: string)
    ensures Grows(log, log.Append(event, subject, decision, policyId, hash))
  {
    Receipts.AppendVerifies(log.hash, log.genesis, log.receipts, event, subject, decision, policyId, hash);
  }

  lemma NoteGrows(env: Env, log: Log, e: Event, id: string, decision: string, text: string)
    ensures Grows(log, Note(env, log, e, id, decision, text))
  {
    hide Grows;
    AppendGrows(log, e.Name(), id, decision, env.doc.policyId, env.digest(text));
  }

  // ---- Guest memory ---------------------------------------------------------------

  const GUEST_HPA_BASE: U64 := 0x1_0000_0000
  const RESERVED: Mm.HostRange := Mm.HostRange(0xF000_0000_0000, 0x10_0000)
  const MIB: nat := 0x10_0000
  const RAM_PERMS: Mm.Perms := Mm.Perms(true, true, false)

  /** The largest guest, in megabytes, that ends below the reserved range. */
  const LARGEST_MB: nat := 251654144

  datatype Resources = Resources(
    table: Mm.Table, quotaMax: U64, quotaUsed: U64, ranges: seq<Mm.HostRange>, ids: seq<nat>, reservedMb: U64)

  /** `want_mb.saturating_mul(MIB).max(PAGE_SIZE)`. */
  function RamLen(mb: U64): (len: U64)
    ensures len > 0
  {
    var bytes := if mb * MIB > U64_MAX then U64_MAX else mb * MIB;
    if bytes < Mm.PAGE_SIZE then Mm.PAGE_SIZE else bytes
  }

  function AllocateRam(id: string, mb: U64, budget: U64): Result<Resources, Mm.MmError> {
    if mb > budget then Err(Mm.QuotaExceeded(mb, budget))
    else
      var (table, r) :=
        Mm.Allocate(Mm.EmptyTable(Some(RESERVED)), id, 0, GUEST_HPA_BASE, RamLen(mb), RAM_PERMS);
      if r.Err? then Err(r.error)
      else Ok(Resources(table, budget, mb, [Mm.HostRange(r.value.hpa, r.value.len)], [r.value.id], mb))
  }

  /** A fresh table with the one mapping of the guest's memory, and its quota. */
  predicate OwnsRam(res: Resources, id: string, mb: U64, budget: U64) {
    && res.table == Mm.Allocate(Mm.EmptyTable(Some(RESERVED)), id, 0, GUEST_HPA_BASE, RamLen(mb), RAM_PERMS).0
    && res.table.mappings == map[0 := Mm.Mapping(0, 0, GUEST_HPA_BASE, RamLen(mb), RAM_PERMS)]
    && res.ranges == [Mm.HostRange(GUEST_HPA_BASE, RamLen(mb))] && res.ids == [0]
    && res.quotaMax == budget && res.quotaUsed == mb == res.reservedMb <= budget
  }

  lemma RamFits(mb: U64)
    ensures Mm.Enforce(Some(RESERVED), GUEST_HPA_BASE, RamLen(mb), RAM_PERMS) == None <==> mb <= LARGEST_MB
  {
  }

  /** Memory can be had exactly within the budget and below the reserved range. */
  lemma RamExactly(id: string, mb: U64, budget: U64)
    ensures AllocateRam(id, mb, budget).Ok? <==> mb <= budget && mb <= LARGEST_MB
    ensures AllocateRam(id, mb, budget).Ok? ==> OwnsRam(AllocateRam(id, mb, budget).value, id, mb, budget)
  {
    hide RamLen;
    hide Mm.Allocate;
    RamFits(mb);
    Mm.AllocateFailsLikeEnforce(Mm.EmptyTable(Some(RESERVED)), id, 0, GUEST_HPA_BASE, RamLen(mb), RAM_PERMS);
  }

  function UnmapAll(t: Mm.Table, ids: seq<nat>): Mm.Table
    decreases ids
  {
    if ids == [] then t else UnmapAll(Mm.Unmap(t, ids[0]).0, ids[1..])
  }

  function ZeroAll(t: Mm.Table, ranges: seq<Mm.HostRange>): Mm.Table
    decreases |ranges|
  {
    if ranges == [] then t else ZeroAll(Mm.MarkZeroed(t, ranges[0].start, ranges[0].len), ranges[1..])
  }

  /** What `destroy` does to the resources it consumes. */
  function TornDown(res: Resources): Resources {
    res.(
      table := ZeroAll(UnmapAll(res.table, res.ids), res.ranges),
      quotaUsed := if res.quotaUsed >= res.reservedMb then res.quotaUsed - res.reservedMb else 0)
  }

  /** Every frame of guest memory is zeroed, nothing is mapped and nothing is charged. */
  ghost predicate Scrubbed(res: Resources, mb: U64) {
    && res.table.mappings == map[] && res.quotaUsed == 0
    && forall f: nat :: Mm.StateOf(res.table.frames, f) ==
         if Mm.Touches(GUEST_HPA_BASE, RamLen(mb), f) then Some(Mm.Zeroed) else None
  }

  lemma TearDownOne(t: Mm.Table, id: nat, range: Mm.HostRange)
    ensures ZeroAll(UnmapAll(t, [id]), [range]) == Mm.MarkZeroed(Mm.Unmap(t, id).0, range.start, range.len)
  {
    hide Mm.Unmap;
    hide Mm.MarkZeroed;
    var t' := Mm.Unmap(t, id).0;
    assert UnmapAll(t', [id][1..]) == t';
    var t'' := Mm.MarkZeroed(t', range.start, range.len);
    assert ZeroAll(t'', [range][1..]) == t'';
  }

  /** Destroying scrubs the guest's memory. */
  lemma DestroyScrubs(res: Resources, id: string, mb: U64, budget: U64)
    requires OwnsRam(res, id, mb, budget) && mb <= LARGEST_MB
    ensures Scrubbed(TornDown(res), mb)
  {
    hide RamLen;
    hide Mm.Paint;
    hide Mm.Touches;
    var t0, len := Mm.EmptyTable(Some(RESERVED)), RamLen(mb);
    RamFits(mb);
    Mm.AllocateFailsLikeEnforce(t0, id, 0, GUEST_HPA_BASE, len, RAM_PERMS);
    TearDownOne(res.table, 0, Mm.HostRange(GUEST_HPA_BASE, len));
    UnmapsTheOne(t0, id, len);
    var gone := Mm.Unmap(res.table, 0).0;
    forall f: nat
      ensures Mm.StateOf(TornDown(res).table.frames, f) ==
        if Mm.Touches(GUEST_HPA_BASE, len, f) then Some(Mm.Zeroed) else None
    {
      Mm.PaintAt(gone.frames, GUEST_HPA_BASE, len, Mm.Zeroed, f);
      Mm.PaintAt(res.table.frames, GUEST_HPA_BASE, len, Mm.Poisoned, f);
      Mm.PaintAt(t0.frames, GUEST_HPA_BASE, len, Mm.Assigned, f);
    }
  }

  lemma UnmapsTheOne(t0: Mm.Table, id: string, len: U64)
    requires t0 == Mm.EmptyTable(Some(RESERVED))
    requires Mm.Enforce(Some(RESERVED), GUEST_HPA_BASE, len, RAM_PERMS) == None
    ensures
      var t := Mm.Allocate(t0, id, 0, GUEST_HPA_BASE, len, RAM_PERMS).0;
      && Mm.Unmap(t, 0).0.mappings == map[]
      && Mm.Unmap(t, 0).0.frames == Mm.Paint(t.frames, GUEST_HPA_BASE, len, Mm.Poisoned)
  {
    Mm.AllocateFailsLikeEnforce(t0, id, 0, GUEST_HPA_BASE, len, RAM_PERMS);
    Mm.StepKeepsInv(t0, Mm.DoAllocate(id, 0, GUEST_HPA_BASE, len, RAM_PERMS));
  }

  // ---- The typed states -----------------------------------------------------------

  /** What every state from `Unlocked` on carries. */
  datatype Core = Core(id: string, resources: Resources, key: seq<Byte>)

  type Bus = Devices.Graph<Devices.TestDevice>

  datatype Runnable = Runnable(manifest: VerifiedManifest, vcpus: seq<Vcpu.VcpuState>, devices: Bus, nics: nat)

  datatype RunningVm = RunningVm(core: Core, scheduler: Scheduler.State, runnable: Runnable)

  datatype PausedVm = PausedVm(core: Core, runnable: Runnable)

  datatype SnapshotReceipt = SnapshotReceipt(id: string, receiptId: string, chainHead: string)

  datatype Attached = Attached(devices: Bus, vcpus: nat)

  // ---- The transitions ------------------------------------------------------------

  function Define(env: Env, log: Log, c: Capsule): Log {
    Note(env, log, VmDefine, c.VmId(), "allow", "define|" + c.capsuleId + "|" + c.ImageHash())
  }

  function Verify(env: Env, log: Log, c: Capsule): (Log, Result<LaunchApproval, VmError>) {
    var decision := EvaluateLaunch(env.doc, env.version, c.manifest.signature == Valid, c.policy);
    match decision
    case Deny(_) =>
      (Note(env, log, ManifestVerify, c.VmId(), "deny", "verify_deny|" + c.VmId()), Err(PolicyDenied(decision)))
    case RequireApproval(_) =>
      (Note(env, log, ManifestVerify, c.VmId(), "require_approval", "verify_approval|" + c.VmId()),
       Err(PolicyDenied(decision)))
    case Allow =>
      var approval := CheckLaunch(c.manifest, LaunchContextOf(c, env.version));
      if approval.Err? then (log, Err(LaunchGate(approval.error)))
      else
        (Note(env, log, ManifestVerify, c.VmId(), "allow", "verify|" + c.VmId() + "|" + c.ImageHash()),
         Ok(approval.value))
  }

  function Prepare(env: Env, log: Log, c: Capsule): (Log, Result<Resources, VmError>) {
    var res := AllocateRam(c.VmId(), c.maxMb, c.policy.memoryBudgetMb);
    if res.Err? then (log, Err(Memory(res.error)))
    else
      (Note(env, log, VmPrepare, c.VmId(), "allow", "prepare|" + c.VmId() + "|" + Decimal.Print(c.maxMb) + "mb"),
       Ok(res.value))
  }

  function KeyRequest(env: Env, c: Capsule): Attest.KeyReleaseRequest {
    Attest.KeyReleaseRequest(
      "key_release", c.plan.deviceId, c.VmId(), c.plan.capsuleHash, c.plan.bootPolicyHash,
      c.plan.pcrs, env.version, c.plan.nonce)
  }

  function Unlock(env: Env, log: Log, c: Capsule): (Log, Result<seq<Byte>, VmError>) {
    var (log', decision) := Attest.Evaluate(env.kms, log, KeyRequest(env, c));
    match decision
    case Allow(key) => (log', Ok(key))
    case Deny(reason) => (log', Err(KeyReleaseDenied(reason)))
  }

  /** The first passthrough device that the policy does not allow outright. */
  function FirstRefused(doc: PolicyDocument, devices: seq<string>): Option<string> {
    if devices == [] then None
    else if EvaluateAssignment(doc, true) != Allow then Some(devices[0])
    else FirstRefused(doc, devices[1..])
  }

  function Attach(env: Env, log: Log, c: Capsule): (Log, Result<Attached, VmError>) {
    var refused := FirstRefused(env.doc, c.passthrough);
    if refused.Some? then
      var decision := EvaluateAssignment(env.doc, true);
      (if decision.Deny? then
         Note(env, log, DeviceAssign, c.VmId(), "deny", "attach_deny|" + c.VmId() + "|" + refused.value)
       else log,
       Err(PassthroughDenied(refused.value, decision)))
    else
      var count := c.disks + c.nics;
      if count > Devices.TURN then (log, Err(Device(DeviceTypes.UnmappedAddress(0x1000))))
      else
        (Note(env, log, DeviceAssign, c.VmId(), "allow", AttachText(c)), Ok(Attached(BusOf(c), c.vcpus)))
  }

  function AttachText(c: Capsule): string {
    "attach|" + c.VmId() + "|" + Decimal.Print(c.disks + c.nics) + "dev|" + Decimal.Print(c.vcpus) + "vcpu"
  }

  /** One device per disk and NIC, each in its own window. */
  function BusOf(c: Capsule): Bus { Devices.Attached(Devices.NewTestDevice, c.disks + c.nics) }

  /** Every vCPU enqueued for a normal guest, in id order. */
  function Scheduled(n: nat): Scheduler.State {
    if n == 0 then Scheduler.EMPTY
    else Scheduler.Enqueue(Scheduled(n - 1), n - 1, Scheduler.Class.NormalGuest.Index())
  }

  function Everywhere(n: nat, s: Vcpu.VcpuState): (v: seq<Vcpu.VcpuState>)
    ensures |v| == n
  {
    seq(n, _ => s)
  }

  function Run(env: Env, log: Log, c: Capsule, core: Core, a: Attached): (Log, RunningVm) {
    (Note(env, log, VmLaunch, c.VmId(), "allow", "run|" + c.VmId() + "|" + c.ImageHash()),
     RunningVm(core, Scheduled(a.vcpus), Runnable(c.manifest, Everywhere(a.vcpus, Vcpu.Running), a.devices, c.nics)))
  }

  function Pause(env: Env, log: Log, vm: RunningVm): (Log, PausedVm) {
    (Note(env, log, VmPause, vm.core.id, "allow", "pause|" + vm.core.id),
     PausedVm(vm.core, vm.runnable.(vcpus := Everywhere(|vm.runnable.vcpus|, Vcpu.Blocked))))
  }

  function TakeSnapshot(env: Env, log: Log, vm: PausedVm): (Log, SnapshotReceipt) {
    var log' := Note(env, log, Snapshot, vm.core.id, "allow", "snapshot|" + vm.core.id);
    (log', SnapshotReceipt(vm.core.id, log'.receipts[|log.receipts|].id, Receipts.Head(log'.genesis, log'.receipts)))
  }

  function Stop(env: Env, log: Log, vm: RunningVm): (Log, Core) {
    (Note(env, log, VmStop, vm.core.id, "allow", "stop|" + vm.core.id), vm.core)
  }

  function DestroyVm(env: Env, log: Log, core: Core): (Log, Core) {
    (Note(env, log, Destroy, core.id, "allow", "destroy|" + core.id),
     Core(core.id, TornDown(core.resources), Zeros(|core.key|)))
  }

  /** `prepare`, `unlock`, `attach` and `run`, stopping at the first that fails. */
  function Launch(env: Env, log: Log, c: Capsule): (Log, Result<RunningVm, VmError>) {
    var (log1, res) := Prepare(env, log, c);
    if res.Err? then (log1, Err(res.error))
    else
      var (log2, key) := Unlock(env, log1, c);
      if key.Err? then (log2, Err(key.error))
      else
        var (log3, a) := Attach(env, log2, c);
        if a.Err? then (log3, Err(a.error))
        else
          var (log4, vm) := Run(env, log3, c, Core(c.VmId(), res.value, key.value), a.value);
          (log4, Ok(vm))
  }

  // ---- What the transitions require ------------------------------------------------

  lemma {:induction false} FirstRefusedMeans(doc: PolicyDocument, devices: seq<string>)
    ensures FirstRefused(doc, devices) == None <==> devices == [] || doc.allowPassthrough
  {
    if devices != [] {
      FirstRefusedMeans(doc, devices[1..]);
    }
  }

  /** Verification passes exactly for cleared capsules. */
  lemma VerifiesExactly(env: Env, log: Log, c: Capsule)
    ensures Verify(env, log, c).1.Ok? <==> Cleared(env.doc, env.version, c)
  {
    hide Note;
    hide EngineAllows;
    hide GateAllows;
    hide CheckLaunch;
    ClearedExactly(env.doc, env.version, c);
  }

  /** The guest fits its budget and the space below the reserved range. */
  predicate WithinMemory(c: Capsule) {
    c.maxMb <= c.policy.memoryBudgetMb && c.maxMb <= LARGEST_MB
  }

  predicate KeyReleased(env: Env, c: Capsule) {
    Attest.GatesPass(env.kms.policy, KeyRequest(env, c))
  }

  predicate PassthroughAllowed(env: Env, c: Capsule) {
    c.passthrough == [] || env.doc.allowPassthrough
  }

  predicate FitsBus(c: Capsule) { c.disks + c.nics <= Devices.TURN }

  /** Everything that must hold of a verified capsule before it runs. */
  predicate Launchable(env: Env, c: Capsule) {
    WithinMemory(c) && KeyReleased(env, c) && PassthroughAllowed(env, c) && FitsBus(c)
  }

  /** A launch succeeds exactly for launchable capsules. */
  lemma LaunchesExactly(env: Env, log: Log, c: Capsule)
    ensures Launch(env, log, c).1.Ok? <==> Launchable(env, c)
  {
    hide AllocateRam;
    hide Attest.GatesPass;
    hide Attest.DenyReason;
    hide FirstRefused;
    hide Note;
    hide Scheduled;
    hide AttachText;
    hide BusOf;
    RamExactly(c.VmId(), c.maxMb, c.policy.memoryBudgetMb);
    Attest.ReleasedExactly(env.kms.policy, KeyRequest(env, c));
    FirstRefusedMeans(env.doc, c.passthrough);
  }

  /** Which error a launch that fails gets: memory, then the key service's reason, then passthrough, then the bus. */
  lemma LaunchErrors(env: Env, log: Log, c: Capsule)
    requires Launch(env, log, c).1.Err?
    ensures
      var e := Launch(env, log, c).1.error;
      if c.policy.memoryBudgetMb < c.maxMb then e == Memory(Mm.QuotaExceeded(c.maxMb, c.policy.memoryBudgetMb))
      else if LARGEST_MB < c.maxMb then e == Memory(Mm.OverlapsReservedHostRange)
      else if !KeyReleased(env, c) then
        e.KeyReleaseDenied? && Attest.DenyReason(env.kms.policy, KeyRequest(env, c)) == Some(e.reason)
      else if c.passthrough != [] && !env.doc.allowPassthrough then
        e == PassthroughDenied(c.passthrough[0], Deny(PassthroughForbidden))
      else e == Device(DeviceTypes.UnmappedAddress(0x1000))
  {
    hide Attest.GatesPass;
    hide Attest.DenyReason;
    hide KeyRequest;
    hide FirstRefused;
    hide AllocateRam;
    hide Note;
    hide Scheduled;
    hide AttachText;
    hide BusOf;
    RamExactly(c.VmId(), c.maxMb, c.policy.memoryBudgetMb);
    if !WithinMemory(c) {
      RamError(c.VmId(), c.maxMb, c.policy.memoryBudgetMb);
    }
    Attest.ReleasedExactly(env.kms.policy, KeyRequest(env, c));
    FirstRefusedMeans(env.doc, c.passthrough);
    FirstRefusedIsFirst(env.doc, c.passthrough);
  }

  lemma FirstRefusedIsFirst(doc: PolicyDocument, devices: seq<string>)
    ensures devices != [] && !doc.allowPassthrough ==> FirstRefused(doc, devices) == Some(devices[0])
  {
  }

  lemma RamError(id: string, mb: U64, budget: U64)
    requires AllocateRam(id, mb, budget).Err?
    ensures AllocateRam(id, mb, budget).error
         == if budget < mb then Mm.QuotaExceeded(mb, budget) else Mm.OverlapsReservedHostRange
  {
    hide RamLen;
    hide Mm.Allocate;
    RamFits(mb);
    Mm.AllocateFailsLikeEnforce(Mm.EmptyTable(Some(RESERVED)), id, 0, GUEST_HPA_BASE, RamLen(mb), RAM_PERMS);
  }

  /** What a started guest is: the capsule's memory, the released key and every vCPU running. */
  predicate Started(env: Env, c: Capsule, vm: RunningVm) {
    && vm.core.id == c.VmId()
    && OwnsRam(vm.core.resources, c.VmId(), c.maxMb, c.policy.memoryBudgetMb)
    && vm.core.key == env.kms.wrap(env.kms.policy, KeyRequest(env, c))
    && vm.scheduler == Scheduled(c.vcpus)
    && vm.runnable == Runnable(c.manifest, Everywhere(c.vcpus, Vcpu.Running), BusOf(c), c.nics)
    && Devices.Inv(vm.runnable.devices)
  }

  lemma LaunchStarts(env: Env, log: Log, c: Capsule)
    requires Launch(env, log, c).1.Ok?
    ensures Started(env, c, Launch(env, log, c).1.value)
  {
    hide AllocateRam;
    hide OwnsRam;
    hide Attest.DenyReason;
    hide FirstRefused;
    hide Note;
    hide Scheduled;
    hide AttachText;
    RamExactly(c.VmId(), c.maxMb, c.policy.memoryBudgetMb);
    if FitsBus(c) {
      Devices.AttachedInv(Devices.NewTestDevice, c.disks + c.nics);
    }
  }

  function Ids(n: nat): (q: seq<Scheduler.Id>)
    ensures |q| == n
  {
    seq(n, i requires 0 <= i < n => i)
  }

  lemma {:induction false} ScheduledQueues(n: nat)
    ensures Scheduled(n) == Scheduler.Raw.State([[], [], Ids(n), [], [], []], {})
  {
    if n > 0 {
      ScheduledQueues(n - 1);
      assert n - 1 !in Ids(n - 1);
      assert Ids(n - 1) + [n - 1] == Ids(n);
    } else {
      assert Ids(0) == [];
    }
  }

  /** A started guest's scheduler serves its vCPUs in turn, each once a round. */
  lemma StartedRoundRobin(n: nat)
    ensures Scheduler.Inv(Scheduled(n))
    ensures Scheduler.Served(Scheduled(n), Scheduler.Picks(n)) == Scheduler.Somes(Ids(n))
    ensures Scheduler.Run(Scheduled(n), Scheduler.Picks(n)) == Scheduled(n)
  {
    hide Scheduled;
    ScheduledQueues(n);
    Scheduler.FullRound(Scheduled(n), 2);
  }

  // ---- What the transitions do, field by field ---------------------------------------

  /** One receipt is added, and it says this, under the runtime's policy and the digest of this text. */
  predicate Leaves(env: Env, before: Log, after: Log, event: string, id: string, decision: string, text: string) {
    var n := |before.receipts|;
    && |after.receipts| == n + 1 && before.receipts <= after.receipts
    && after.receipts[n].body.event == event && after.receipts[n].body.subject == id
    && after.receipts[n].body.decision == decision
    && after.receipts[n].body.policyId == env.doc.policyId
    && after.receipts[n].body.inputsHash == env.digest(text)
  }

  lemma NoteLeaves(env: Env, log: Log, e: Event, id: string, decision: string, text: string)
    ensures Leaves(env, log, Note(env, log, e, id, decision, text), e.Name(), id, decision, text)
  {
    hide Receipts.Entry;
    Receipts.AppendStores(log, e.Name(), id, decision, env.doc.policyId, env.digest(text));
  }

  /** The receipt of each lifecycle step of a machine that already runs, and of its definition. */
  lemma StepsLeave(env: Env, log: Log, c: Capsule, vm: RunningVm, p: PausedVm, core: Core)
    ensures Leaves(env, log, Define(env, log, c), "vm_define", c.VmId(), "allow",
      "define|" + c.capsuleId + "|" + c.manifest.inner.imageHash)
    ensures Leaves(env, log, Pause(env, log, vm).0, "vm_pause", vm.core.id, "allow", "pause|" + vm.core.id)
    ensures Leaves(env, log, TakeSnapshot(env, log, p).0, "snapshot", p.core.id, "allow", "snapshot|" + p.core.id)
    ensures Leaves(env, log, Stop(env, log, vm).0, "vm_stop", vm.core.id, "allow", "stop|" + vm.core.id)
    ensures Leaves(env, log, DestroyVm(env, log, core).0, "destroy", core.id, "allow", "destroy|" + core.id)
  {
    hide Note;
    hide Leaves;
    hide TornDown;
    NoteLeaves(env, log, VmDefine, c.VmId(), "allow", "define|" + c.capsuleId + "|" + c.ImageHash());
    NoteLeaves(env, log, VmPause, vm.core.id, "allow", "pause|" + vm.core.id);
    NoteLeaves(env, log, Snapshot, p.core.id, "allow", "snapshot|" + p.core.id);
    NoteLeaves(env, log, VmStop, vm.core.id, "allow", "stop|" + vm.core.id);
    NoteLeaves(env, log, Destroy, core.id, "allow", "destroy|" + core.id);
  }

  /** The receipt of each step that takes a capsule towards running, when the step leaves one. */
  lemma LaunchStepsLeave(env: Env, log: Log, c: Capsule, core: Core, a: Attached)
    ensures
      var (log', r) := Verify(env, log, c);
      && (r.Ok? ==> Leaves(env, log, log', "manifest_verify", c.VmId(), "allow",
            "verify|" + c.VmId() + "|" + c.manifest.inner.imageHash))
      && (r.Err? && r.error.PolicyDenied? ==>
            Leaves(env, log, log', "manifest_verify", c.VmId(), "deny", "verify_deny|" + c.VmId()))
    ensures Prepare(env, log, c).1.Ok? ==>
      Leaves(env, log, Prepare(env, log, c).0, "vm_prepare", c.VmId(), "allow",
        "prepare|" + c.VmId() + "|" + Decimal.Print(c.maxMb) + "mb")
    ensures
      var (log', r) := Attach(env, log, c);
      && (r.Ok? ==> Leaves(env, log, log', "device_assign", c.VmId(), "allow",
            "attach|" + c.VmId() + "|" + Decimal.Print(c.disks + c.nics) + "dev|" + Decimal.Print(c.vcpus) + "vcpu"))
      && (c.passthrough != [] && !env.doc.allowPassthrough ==>
            && r == Err(PassthroughDenied(c.passthrough[0], Deny(PassthroughForbidden)))
            && Leaves(env, log, log', "device_assign", c.VmId(), "deny",
                 "attach_deny|" + c.VmId() + "|" + c.passthrough[0]))
    ensures Leaves(env, log, Run(env, log, c, core, a).0, "vm_launch", c.VmId(), "allow",
      "run|" + c.VmId() + "|" + c.manifest.inner.imageHash)
  {
    hide Note;
    hide Leaves;
    hide AllocateRam;
    hide CheckLaunch;
    hide BusOf;
    hide Scheduled;
    hide Decimal.Print;
    NoteLeaves(env, log, ManifestVerify, c.VmId(), "allow", "verify|" + c.VmId() + "|" + c.ImageHash());
    NoteLeaves(env, log, ManifestVerify, c.VmId(), "deny", "verify_deny|" + c.VmId());
    NoteLeaves(env, log, VmPrepare, c.VmId(), "allow", "prepare|" + c.VmId() + "|" + Decimal.Print(c.maxMb) + "mb");
    NoteLeaves(env, log, DeviceAssign, c.VmId(), "allow", AttachText(c));
    if c.passthrough != [] {
      NoteLeaves(env, log, DeviceAssign, c.VmId(), "deny", "attach_deny|" + c.VmId() + "|" + c.passthrough[0]);
    }
    NoteLeaves(env, log, VmLaunch, c.VmId(), "allow", "run|" + c.VmId() + "|" + c.ImageHash());
  }

  /** Pausing blocks every vCPU and drops the scheduler; memory, key, devices and manifest stay. */
  lemma PauseBlocks(env: Env, log: Log, vm: RunningVm)
    ensures
      var p := Pause(env, log, vm).1;
      && p.core == vm.core
      && p.runnable.manifest == vm.runnable.manifest && p.runnable.devices == vm.runnable.devices
      && p.runnable.nics == vm.runnable.nics
      && |p.runnable.vcpus| == |vm.runnable.vcpus|
      && forall i | 0 <= i < |vm.runnable.vcpus| :: p.runnable.vcpus[i] == Vcpu.Blocked
  {
    hide Note;
  }

  /** A snapshot token carries the machine's id, the id of the receipt just added, and its hash as the head. */
  lemma SnapshotNamesTheHead(env: Env, log: Log, p: PausedVm)
    ensures
      var (log', token) := TakeSnapshot(env, log, p);
      var n := |log.receipts|;
      && |log'.receipts| == n + 1 && log'.receipts[n].body.event == "snapshot"
      && token.id == p.core.id && token.receiptId == log'.receipts[n].id && token.chainHead == log'.receipts[n].hash
  {
    hide Receipts.Entry;
    NoteLeaves(env, log, Snapshot, p.core.id, "allow", "snapshot|" + p.core.id);
  }

  /** The key service is asked about the capsule's own plan and the runtime's version. */
  lemma AsksForPlan(env: Env, c: Capsule)
    ensures
      var r := KeyRequest(env, c);
      r.requestType == "key_release" && r.deviceId == c.plan.deviceId && r.vmId == c.VmId() && r.nonce == c.plan.nonce
    ensures KeyReleased(env, c) <==>
      && c.plan.bootPolicyHash == env.kms.policy.expectedBootPolicyHash
      && Attest.Satisfies(c.plan.pcrs, env.kms.policy.expectedPcrs)
      && c.plan.capsuleHash in env.kms.policy.allowedCapsuleHashes
      && env.kms.policy.minHypervisorVersion <= env.version
  {
  }

  /** A guest has its megabytes, and at least one page. */
  lemma RamInNumbers(mb: U64)
    requires mb <= LARGEST_MB
    ensures RamLen(mb) == if mb == 0 then 4096 else 1048576 * mb
  {
  }

  /**
   * A launched guest sees its memory at guest address 0, page by page at host 4 GiB and up, and no other
   * guest address is mapped.
   */
  lemma GuestMemory(env: Env, log: Log, c: Capsule, gpa: U64)
    requires Launch(env, log, c).1.Ok?
    ensures
      var table := Launch(env, log, c).1.value.core.resources.table;
      Mm.Translate(table, gpa)
        == if gpa < (if c.maxMb == 0 then 4096 else 1048576 * c.maxMb) then Some(0x1_0000_0000 + gpa) else None
  {
    hide Launch;
    hide RamLen;
    hide Mm.Allocate;
    hide Mm.Translate;
    LaunchStarts(env, log, c);
    LaunchesExactly(env, log, c);
    RamInNumbers(c.maxMb);
    var t0 := Mm.EmptyTable(Some(RESERVED));
    var table := Launch(env, log, c).1.value.core.resources.table;
    Mm.StepKeepsInv(t0, Mm.DoAllocate(c.VmId(), 0, GUEST_HPA_BASE, RamLen(c.maxMb), RAM_PERMS));
    assert Mm.Inv(table);
    assert 0 in table.mappings;
    Mm.UncoveredIsUnmapped(table, gpa);
    if gpa < RamLen(c.maxMb) {
      Mm.TranslateInNumbers(table, 0, gpa);
    }
  }

  /**
   * A launched guest has its capsule's manifest, NICs and vCPUs, all running and enqueued for a normal guest in id
   * order, and one device per disk and NIC, each answering its own 64 addresses.
   */
  lemma GuestShape(env: Env, log: Log, c: Capsule)
    requires Launch(env, log, c).1.Ok?
    ensures
      var vm := Launch(env, log, c).1.value;
      && vm.core.id == c.manifest.inner.vmId
      && vm.runnable.manifest == c.manifest && vm.runnable.nics == c.nics
      && |vm.runnable.vcpus| == c.vcpus
      && (forall i | 0 <= i < c.vcpus :: vm.runnable.vcpus[i] == Vcpu.Running)
      && |vm.scheduler.queues[2]| == c.vcpus
      && (forall i | 0 <= i < c.vcpus :: vm.scheduler.queues[2][i] == i)
      && (forall k | 0 <= k < 6 && k != 2 :: vm.scheduler.queues[k] == [])
      && |vm.runnable.devices.devices| == c.disks + c.nics
  {
    hide Launch;
    hide OwnsRam;
    hide Scheduled;
    LaunchStarts(env, log, c);
    ScheduledQueues(c.vcpus);
  }

  /** Its device `i` answers at page `i + 1` of the bus. */
  lemma GuestDevices(env: Env, log: Log, c: Capsule, i: nat, addr: nat)
    requires Launch(env, log, c).1.Ok?
    requires i < c.disks + c.nics && i < 0xF_FFFF_FFFF_FFFF
    requires 0x1000 * (i + 1) <= addr < 0x1000 * (i + 1) + 64
    ensures
      var bus := Launch(env, log, c).1.value.runnable.devices;
      && Devices.Owner(Devices.Mmio, bus.mmio, addr) == Some(Devices.Route(0x1000 * (i + 1), 64, i))
      && bus.devices[i] == Devices.NewTestDevice(i) && Devices.LineOf(bus.irqs, i) == Some(i % 256)
  {
    hide Launch;
    hide OwnsRam;
    hide Scheduled;
    LaunchStarts(env, log, c);
    LaunchesExactly(env, log, c);
    Devices.AttachedAnswers(Devices.NewTestDevice, c.disks + c.nics, i, addr);
  }

  // ---- The trail and the log of each transition ------------------------------------

  /** The receipts a failed or finished step adds for its own id. */
  ghost predicate Adds(before: Log, after: Log, id: string, marks: seq<Mark>) {
    && Grows(before, after)
    && TrailOf(after.receipts, id) == TrailOf(before.receipts, id) + marks
    && forall other: string | other != id :: TrailOf(after.receipts, other) == TrailOf(before.receipts, other)
  }

  lemma NoteAdds(env: Env, log: Log, e: Event, id: string, decision: string, text: string)
    requires e != VmDefine
    ensures Adds(log, Note(env, log, e, id, decision, text), id, [MarkOf(e, decision)])
  {
    hide Note;
    hide MarkOf;
    hide Grows;
    hide TrailOf;
    NoteGrows(env, log, e, id, decision, text);
    forall other: string
      ensures TrailOf(Note(env, log, e, id, decision, text).receipts, other)
           == if id != other then TrailOf(log.receipts, other) else TrailOf(log.receipts, other) + [MarkOf(e, decision)]
    {
      NoteTrail(env, log, e, id, decision, text, other);
    }
  }

  lemma AddsNothing(log: Log, id: string)
    ensures Adds(log, log, id, [])
  {
    assert TrailOf(log.receipts, id) + [] == TrailOf(log.receipts, id);
  }

  lemma AddsTwice(a: Log, b: Log, c: Log, id: string, x: seq<Mark>, y: seq<Mark>)
    requires Adds(a, b, id, x) && Adds(b, c, id, y)
    ensures Adds(a, c, id, x + y)
  {
    hide TrailOf;
    assert TrailOf(a.receipts, id) + x + y == TrailOf(a.receipts, id) + (x + y);
    assert a.receipts <= c.receipts;
  }

  lemma EvaluateAdds(env: Env, log: Log, c: Capsule)
    ensures Adds(log, Unlock(env, log, c).0, c.VmId(),
      [MarkOf(KeyRelease, if Unlock(env, log, c).1.Ok? then "allow" else "deny")])
  {
    hide Attest.DenyReason;
    hide Grows;
    var req := KeyRequest(env, c);
    var decision := if Attest.DenyReason(env.kms.policy, req).Some? then "deny" else "allow";
    var hash := env.kms.inputsHash(req);
    assert KeyRelease.Name() == "key_release";
    OnlyDefineIsDefine(KeyRelease);
    AppendGrows(log, "key_release", req.vmId, decision, Attest.KMS_POLICY_ID, hash);
    forall other: string
      ensures TrailOf(log.Append("key_release", req.vmId, decision, Attest.KMS_POLICY_ID, hash).receipts, other)
           == if c.VmId() != other then TrailOf(log.receipts, other)
              else TrailOf(log.receipts, other) + [MarkOf(KeyRelease, decision)]
    {
      AppendTrail(log, "key_release", req.vmId, decision, Attest.KMS_POLICY_ID, hash, other);
    }
  }

  /** The receipt of a verification; a refusal by the launch gate leaves none. */
  function VerifyTrail(env: Env, c: Capsule): seq<Mark> {
    if !EngineAllows(env.doc, env.version, c) then [MarkOf(ManifestVerify, "deny")]
    else if !GateAllows(env.version, c) then []
    else [MarkOf(ManifestVerify, "allow")]
  }

  /** Verification adds exactly that, and nothing about any other machine. */
  lemma VerifyAdds(env: Env, log: Log, c: Capsule)
    ensures Adds(log, Verify(env, log, c).0, c.VmId(), VerifyTrail(env, c))
  {
    hide Note;
    hide MarkOf;
    hide Adds;
    hide CheckLaunch;
    hide EngineAllows;
    hide GateAllows;
    ClearedExactly(env.doc, env.version, c);
    if !EngineAllows(env.doc, env.version, c) {
      NoteAdds(env, log, ManifestVerify, c.VmId(), "deny", "verify_deny|" + c.VmId());
    } else if !GateAllows(env.version, c) {
      AddsNothing(log, c.VmId());
    } else {
      NoteAdds(env, log, ManifestVerify, c.VmId(), "allow", "verify|" + c.VmId() + "|" + c.ImageHash());
    }
  }

  lemma PrepareAdds(env: Env, log: Log, c: Capsule)
    ensures Adds(log, Prepare(env, log, c).0, c.VmId(),
      if Prepare(env, log, c).1.Ok? then [MarkOf(VmPrepare, "allow")] else [])
  {
    hide Note;
    hide MarkOf;
    hide Adds;
    hide AllocateRam;
    AddsNothing(log, c.VmId());
    NoteAdds(env, log, VmPrepare, c.VmId(), "allow", "prepare|" + c.VmId() + "|" + Decimal.Print(c.maxMb) + "mb");
  }

  /** The receipt of an attachment; too many devices for the bus leave none. */
  function AttachTrail(env: Env, c: Capsule): seq<Mark> {
    if !PassthroughAllowed(env, c) then [MarkOf(DeviceAssign, "deny")]
    else if !FitsBus(c) then []
    else [MarkOf(DeviceAssign, "allow")]
  }

  lemma AttachAdds(env: Env, log: Log, c: Capsule)
    ensures Adds(log, Attach(env, log, c).0, c.VmId(), AttachTrail(env, c))
    ensures Attach(env, log, c).1.Ok? <==> PassthroughAllowed(env, c) && FitsBus(c)
  {
    hide Note;
    hide MarkOf;
    hide Adds;
    hide FirstRefused;
    hide AttachText;
    hide BusOf;
    FirstRefusedMeans(env.doc, c.passthrough);
    var refused := FirstRefused(env.doc, c.passthrough);
    if refused.Some? {
      NoteAdds(env, log, DeviceAssign, c.VmId(), "deny", "attach_deny|" + c.VmId() + "|" + refused.value);
    } else if !FitsBus(c) {
      AddsNothing(log, c.VmId());
    } else {
      NoteAdds(env, log, DeviceAssign, c.VmId(), "allow", AttachText(c));
    }
  }

  /** The receipts of a launch: all four, or those up to the first requirement that is not met. */
  function LaunchTrail(env: Env, c: Capsule): seq<Mark> {
    if !WithinMemory(c) then []
    else if !KeyReleased(env, c) then [MarkOf(VmPrepare, "allow"), MarkOf(KeyRelease, "deny")]
    else if !PassthroughAllowed(env, c) then KeyMarks() + [MarkOf(DeviceAssign, "deny")]
    else if !FitsBus(c) then KeyMarks()
    else LaunchMarks()
  }

  function KeyMarks(): seq<Mark> { [MarkOf(VmPrepare, "allow"), MarkOf(KeyRelease, "allow")] }

  function LaunchMarks(): seq<Mark> {
    KeyMarks() + [MarkOf(DeviceAssign, "allow"), MarkOf(VmLaunch, "allow")]
  }

  lemma WholeTrail(env: Env, c: Capsule)
    requires Launchable(env, c)
    ensures LaunchTrail(env, c) == LaunchMarks()
  {
  }

  /** A launch adds exactly its trail, and nothing about any other machine. */
  lemma LaunchAdds(env: Env, log: Log, c: Capsule)
    ensures Adds(log, Launch(env, log, c).0, c.VmId(), LaunchTrail(env, c))
  {
    hide MarkOf;
    hide Adds;
    hide Prepare;
    hide Unlock;
    hide Attach;
    hide Run;
    hide WithinMemory;
    hide KeyReleased;
    hide PassthroughAllowed;
    hide FitsBus;
    var id := c.VmId();
    StepsSucceed(env, log, c);
    PrepareAdds(env, log, c);
    var (log1, res) := Prepare(env, log, c);
    if WithinMemory(c) {
      StepsSucceed(env, log1, c);
      EvaluateAdds(env, log1, c);
      var (log2, key) := Unlock(env, log1, c);
      var keyMark := MarkOf(KeyRelease, if key.Ok? then "allow" else "deny");
      AddsTwice(log, log1, log2, id, [MarkOf(VmPrepare, "allow")], [keyMark]);
      assert [MarkOf(VmPrepare, "allow")] + [keyMark] == [MarkOf(VmPrepare, "allow"), keyMark];
      if KeyReleased(env, c) {
        LaunchEnds(env, log2, c, Core(id, res.value, key.value));
        AttachThenRun(env, log, log2, c, Core(id, res.value, key.value));
      }
    }
  }

  /** When each of the first two steps of a launch succeeds. */
  lemma StepsSucceed(env: Env, log: Log, c: Capsule)
    ensures Prepare(env, log, c).1.Ok? <==> WithinMemory(c)
    ensures Unlock(env, log, c).1.Ok? <==> KeyReleased(env, c)
  {
    hide AllocateRam;
    hide Attest.GatesPass;
    hide Attest.DenyReason;
    hide Note;
    RamExactly(c.VmId(), c.maxMb, c.policy.memoryBudgetMb);
    Attest.ReleasedExactly(env.kms.policy, KeyRequest(env, c));
  }

  /** `attach` and `run`: the log after the last two steps. */
  function Ending(env: Env, log: Log, c: Capsule, core: Core): Log {
    var (log3, a) := Attach(env, log, c);
    if a.Err? then log3 else Run(env, log3, c, core, a.value).0
  }

  lemma LaunchEnds(env: Env, log: Log, c: Capsule, core: Core)
    ensures Adds(log, Ending(env, log, c, core), c.VmId(),
      if PassthroughAllowed(env, c) && FitsBus(c) then [MarkOf(DeviceAssign, "allow"), MarkOf(VmLaunch, "allow")]
      else AttachTrail(env, c))
  {
    hide MarkOf;
    hide Adds;
    hide Attach;
    hide Note;
    hide Scheduled;
    hide PassthroughAllowed;
    hide FitsBus;
    var id := c.VmId();
    AttachAdds(env, log, c);
    var (log3, a) := Attach(env, log, c);
    if a.Ok? {
      NoteAdds(env, log3, VmLaunch, id, "allow", "run|" + id + "|" + c.ImageHash());
      AddsTwice(log, log3, Run(env, log3, c, core, a.value).0, id,
        [MarkOf(DeviceAssign, "allow")], [MarkOf(VmLaunch, "allow")]);
      assert [MarkOf(DeviceAssign, "allow")] + [MarkOf(VmLaunch, "allow")]
          == [MarkOf(DeviceAssign, "allow"), MarkOf(VmLaunch, "allow")];
    }
  }

  lemma AttachThenRun(env: Env, log: Log, log2: Log, c: Capsule, core: Core)
    requires Adds(log, log2, c.VmId(), KeyMarks())
    ensures Adds(log, Ending(env, log2, c, core), c.VmId(),
      if !PassthroughAllowed(env, c) then KeyMarks() + [MarkOf(DeviceAssign, "deny")]
      else if !FitsBus(c) then KeyMarks()
      else LaunchMarks())
  {
    hide MarkOf;
    hide Adds;
    hide Ending;
    hide PassthroughAllowed;
    hide FitsBus;
    LaunchEnds(env, log2, c, core);
    var marks := if PassthroughAllowed(env, c) && FitsBus(c)
      then [MarkOf(DeviceAssign, "allow"), MarkOf(VmLaunch, "allow")] else AttachTrail(env, c);
    AddsTwice(log, log2, Ending(env, log2, c, core), c.VmId(), KeyMarks(), marks);
    assert KeyMarks() + [] == KeyMarks();
  }

  // ---- Transitions that leave no receipt --------------------------------------------

  lemma AddsCount(before: Log, after: Log, id: string, marks: seq<Mark>)
    requires Adds(before, after, id, marks)
    ensures |after.receipts| == |before.receipts| ==> marks == []
  {
    hide TrailOf;
    if |after.receipts| == |before.receipts| {
      assert after.receipts == before.receipts;
      var t := TrailOf(before.receipts, id);
      assert t == t + marks;
      assert |t| == |t| + |marks|;
    }
  }

  /** Verification leaves no receipt exactly when the policy allows the launch and the launch gate does not. */
  lemma VerifySilentExactly(env: Env, log: Log, c: Capsule)
    ensures |Verify(env, log, c).0.receipts| == |log.receipts|
       <==> EngineAllows(env.doc, env.version, c) && !GateAllows(env.version, c)
  {
    hide EngineAllows;
    hide GateAllows;
    hide CheckLaunch;
    hide Adds;
    hide Receipts.Entry;
    VerifyAdds(env, log, c);
    AddsCount(log, Verify(env, log, c).0, c.VmId(), VerifyTrail(env, c));
    ClearedExactly(env.doc, env.version, c);
  }

  /** A launch leaves no receipt exactly when its memory cannot be had. */
  lemma LaunchSilentExactly(env: Env, log: Log, c: Capsule)
    ensures |Launch(env, log, c).0.receipts| == |log.receipts| <==> !WithinMemory(c)
  {
    hide WithinMemory;
    hide KeyReleased;
    hide Adds;
    hide Prepare;
    LaunchAdds(env, log, c);
    AddsCount(log, Launch(env, log, c).0, c.VmId(), LaunchTrail(env, c));
    StepsSucceed(env, log, c);
    PrepareSilent(env, log, c);
  }

  lemma PrepareSilent(env: Env, log: Log, c: Capsule)
    ensures Prepare(env, log, c).1.Err? ==> Prepare(env, log, c).0 == log
  {
    hide AllocateRam;
  }

  /** The strict policy of a local control plane, and the hypervisor version it runs. */
  const LOCAL_POLICY: PolicyDocument := PolicyDocument("pol-hyperctl-local", 52, true, true, false, false)
  const LOCAL_VERSION: U64 := 52

  /** A signed capsule of `mb` megabytes. */
  function SignedCapsule(mb: U64, keyUnwrapAuthorized: bool): Capsule {
    Capsule(
      "capsule",
      VerifiedManifest(
        UntrustedManifest("vm", "image", 10, 5, mb, 2, [ManifestSignature("ed25519", "key")]), Valid, Pass),
      2, mb, 1, 1, [], VmPolicy(1, U64_MAX, keyUnwrapAuthorized, true, true, false),
      KeyPlan("device", "hash", "boot", map[], "nonce"))
  }

  /**
   * A capsule without key authorisation fails verification, and one above the largest size its
   * launch, without a receipt.
   */
  lemma SilentRefusals(env: Env, log: Log)
    requires env.doc == LOCAL_POLICY && env.version == LOCAL_VERSION
    ensures
      var c := SignedCapsule(256, false);
      Verify(env, log, c).1.Err? && |Verify(env, log, c).0.receipts| == |log.receipts|
    ensures
      var c := SignedCapsule(LARGEST_MB + 1, true);
      Cleared(env.doc, env.version, c) && Launch(env, log, c).1.Err?
        && |Launch(env, log, c).0.receipts| == |log.receipts|
  {
    hide Verify;
    hide Launch;
    VerifySilentExactly(env, log, SignedCapsule(256, false));
    VerifiesExactly(env, log, SignedCapsule(256, false));
    LaunchSilentExactly(env, log, SignedCapsule(LARGEST_MB + 1, true));
    LaunchesExactly(env, log, SignedCapsule(LARGEST_MB + 1, true));
  }

  // ---- The runtime as an object ----------------------------------------------------

  class SlateRuntime {
    const env: Env
    const chain: Receipts.ReceiptChain

    constructor (env: Env, hash: Receipts.Hash)
      ensures this.env == env && fresh(chain)
      ensures chain.Value() == Receipts.Log(hash, Receipts.GENESIS, []) && chain.Value().Valid()
    {
      this.env := env;
      chain := new Receipts.ReceiptChain(hash);
    }

    method Record(e: Event, id: string, decision: string, text: string) returns (r: Receipts.Receipt)
      modifies chain
      ensures chain.Value() == Note(env, old(chain.Value()), e, id, decision, text)
      ensures chain.receipts == old(chain.receipts) + [r]
    {
      r := chain.Append(e.Name(), id, decision, env.doc.policyId, env.digest(text));
    }

    method DefineVm(c: Capsule)
      modifies chain
      ensures chain.Value() == Define(env, old(chain.Value()), c)
    {
      hide Note;
      var _ := Record(VmDefine, c.VmId(), "allow", "define|" + c.capsuleId + "|" + c.ImageHash());
    }

    method VerifyVm(c: Capsule) returns (r: Result<LaunchApproval, VmError>)
      modifies chain
      ensures (chain.Value(), r) == Verify(env, old(chain.Value()), c)
    {
      hide Note;
      hide CheckLaunch;
      var decision := EvaluateLaunch(env.doc, env.version, c.manifest.signature == Valid, c.policy);
      if decision.Deny? {
        var _ := Record(ManifestVerify, c.VmId(), "deny", "verify_deny|" + c.VmId());
        return Err(PolicyDenied(decision));
      }
      var approval := CheckLaunch(c.manifest, LaunchContextOf(c, env.version));
      if approval.Err? {
        return Err(LaunchGate(approval.error));
      }
      var _ := Record(ManifestVerify, c.VmId(), "allow", "verify|" + c.VmId() + "|" + c.ImageHash());
      r := Ok(approval.value);
    }

    method PrepareVm(c: Capsule) returns (r: Result<Resources, VmError>)
      modifies chain
      ensures (chain.Value(), r) == Prepare(env, old(chain.Value()), c)
    {
      hide Note;
      hide Mm.Allocate;
      hide RamLen;
      var quota := new Mm.MemoryQuotaManager(c.policy.memoryBudgetMb);
      var granted := quota.TryReserve(c.maxMb);
      if granted.Err? {
        return Err(Memory(granted.error));
      }
      var npt := new Mm.NestedPageTable(Some(RESERVED));
      var record := npt.AllocateRange(c.VmId(), 0, GUEST_HPA_BASE, RamLen(c.maxMb), RAM_PERMS);
      if record.Err? {
        return Err(Memory(record.error));
      }
      var table := Mm.Table(npt.npt.nextId, npt.npt.mappings, npt.zeroizer.frames, npt.reserved, npt.records);
      var range := Mm.HostRange(record.value.hpa, record.value.len);
      r := Ok(Resources(table, quota.maxMb, quota.usedMb, [range], [record.value.id], c.maxMb));
      var _ := Record(VmPrepare, c.VmId(), "allow", "prepare|" + c.VmId() + "|" + Decimal.Print(c.maxMb) + "mb");
    }

    method UnlockVm(c: Capsule) returns (r: Result<seq<Byte>, VmError>)
      modifies chain
      ensures (chain.Value(), r) == Unlock(env, old(chain.Value()), c)
    {
      hide Attest.Evaluate;
      var decision := Attest.EvaluateRequest(env.kms, KeyRequest(env, c), chain);
      match decision
      case Allow(key) => r := Ok(key);
      case Deny(reason) => r := Err(KeyReleaseDenied(reason));
    }

    method AttachVm(c: Capsule) returns (r: Result<Attached, VmError>)
      modifies chain
      ensures (chain.Value(), r) == Attach(env, old(chain.Value()), c)
    {
      hide Note;
      for i := 0 to |c.passthrough|
        invariant chain.Value() == old(chain.Value())
        invariant FirstRefused(env.doc, c.passthrough) == FirstRefused(env.doc, c.passthrough[i..])
      {
        var decision := EvaluateAssignment(env.doc, true);
        if decision != Allow {
          if decision.Deny? {
            var _ := Record(DeviceAssign, c.VmId(), "deny", "attach_deny|" + c.VmId() + "|" + c.passthrough[i]);
          }
          return Err(PassthroughDenied(c.passthrough[i], decision));
        }
      }
      var count := c.disks + c.nics;
      var graph, registered := Devices.AttachDevices(Devices.TestAct, Devices.NewTestDevice, count);
      if registered.Err? {
        return Err(Device(registered.error));
      }
      var bus := Devices.Graph(graph.devices, graph.mmio.routes, graph.ports.routes, graph.irqs);
      var _ := Record(DeviceAssign, c.VmId(), "allow", AttachText(c));
      r := Ok(Attached(bus, c.vcpus));
    }

    method RunVm(c: Capsule, core: Core, a: Attached) returns (vm: RunningVm)
      modifies chain
      ensures (chain.Value(), vm) == Run(env, old(chain.Value()), c, core, a)
    {
      hide Note;
      var scheduler := Scheduler.EMPTY;
      for i := 0 to a.vcpus
        invariant scheduler == Scheduled(i)
      {
        scheduler := Scheduler.Enqueue(scheduler, i, Scheduler.Class.NormalGuest.Index());
      }
      var _ := Record(VmLaunch, c.VmId(), "allow", "run|" + c.VmId() + "|" + c.ImageHash());
      vm := RunningVm(core, scheduler, Runnable(c.manifest, Everywhere(a.vcpus, Vcpu.Running), a.devices, c.nics));
    }

    method PauseVm(vm: RunningVm) returns (p: PausedVm)
      modifies chain
      ensures (chain.Value(), p) == Pause(env, old(chain.Value()), vm)
    {
      hide Note;
      var _ := Record(VmPause, vm.core.id, "allow", "pause|" + vm.core.id);
      p := PausedVm(vm.core, vm.runnable.(vcpus := Everywhere(|vm.runnable.vcpus|, Vcpu.Blocked)));
    }

    method SnapshotVm(vm: PausedVm) returns (s: SnapshotReceipt)
      modifies chain
      ensures (chain.Value(), s) == TakeSnapshot(env, old(chain.Value()), vm)
    {
      var receipt := Record(Snapshot, vm.core.id, "allow", "snapshot|" + vm.core.id);
      var head := chain.HeadHash();
      s := SnapshotReceipt(vm.core.id, receipt.id, head);
    }

    method StopVm(vm: RunningVm) returns (core: Core)
      modifies chain
      ensures (chain.Value(), core) == Stop(env, old(chain.Value()), vm)
    {
      hide Note;
      var _ := Record(VmStop, vm.core.id, "allow", "stop|" + vm.core.id);
      core := vm.core;
    }

    method DestroyVmResources(core: Core) returns (gone: Core)
      modifies chain
      ensures (chain.Value(), gone) == DestroyVm(env, old(chain.Value()), core)
    {
      hide Note;
      hide Mm.Unmap;
      hide Mm.MarkZeroed;
      var res := core.resources;
      var table := res.table;
      for i := 0 to |res.ids|
        invariant UnmapAll(table, res.ids[i..]) == UnmapAll(res.table, res.ids)
      {
        table := Mm.Unmap(table, res.ids[i]).0;
      }
      ghost var unmapped := table;
      for i := 0 to |res.ranges|
        invariant ZeroAll(table, res.ranges[i..]) == ZeroAll(unmapped, res.ranges)
      {
        table := Mm.MarkZeroed(table, res.ranges[i].start, res.ranges[i].len);
      }
      var used := if res.quotaUsed >= res.reservedMb then res.quotaUsed - res.reservedMb else 0;
      var buffer := new Byte[|core.key|](i requires 0 <= i < |core.key| => core.key[i]);
      var wrappedVmk := new Attest.SecretHandle(buffer);
      wrappedVmk.Zeroize();
      var _ := Record(Destroy, core.id, "allow", "destroy|" + core.id);
      gone := Core(core.id, res.(table := table, quotaUsed := used), wrappedVmk.bytes[..]);
    }

    /** The control plane's `drive_to_running`. */
    method LaunchVm(c: Capsule) returns (r: Result<RunningVm, VmError>)
      modifies chain
      ensures (chain.Value(), r) == Launch(env, old(chain.Value()), c)
    {
      hide Prepare;
      hide Unlock;
      hide Attach;
      hide Run;
      var res := PrepareVm(c);
      if res.Err? {
        return Err(res.error);
      }
      var key := UnlockVm(c);
      if key.Err? {
        return Err(key.error);
      }
      var a := AttachVm(c);
      if a.Err? {
        return Err(a.error);
      }
      var vm := RunVm(c, Core(c.VmId(), res.value, key.value), a.value);
      r := Ok(vm);
    }
  }
}
