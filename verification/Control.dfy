// crates/hyper-control/src/control.rs: the registry of virtual machines, each in its
// lifecycle stage, over one runtime and one audit chain.
module Control {
  import opened Bytes
  import opened Capsule
  import opened Runtime
  import opened Wrappers
  import Attest
  import Receipts

  // ---- Stages -------------------------------------------------------------------

  datatype Stage =
    | Defined(c: Capsule)
    | Verified(c: Capsule)
    | Running(running: RunningVm)
    | Paused(paused: PausedVm)
    | Stopped(core: Core)
    | Destroyed
    | Snapshotted
    | Failed(reason: string)
  {
    function Name(): string {
      match this
      case Defined(_) => "defined"
      case Verified(_) => "verified"
      case Running(_) => "running"
      case Paused(_) => "paused"
      case Stopped(_) => "stopped"
      case Destroyed => "destroyed"
      case Snapshotted => "snapshotted"
      case Failed(reason) => "failed: " + reason
    }

    predicate IsTerminal() { Destroyed? || Snapshotted? || Failed? }
  }

  datatype ControlError =
    | Json(text: string)
    | Schema(expected: string, got: string)
    | CapsuleVerification(capsuleError: CapsuleError)
    | Lifecycle(vmError: VmError)
    | NotFound(id: string)
    | InvalidState(action: string, id: string, found: string, needed: string)
    | WipeRequired(id: string)

  /** The errors of a command that was refused before it reached the runtime. */
  predicate Refused(e: ControlError) { !e.Lifecycle? }

  // ---- Capsule descriptors --------------------------------------------------------

  const CONTROL_CAPSULE_SCHEMA: string := "chain.control.capsule.v1"

  /** A parsed descriptor; its manifest may itself have failed to parse. */
  datatype Spec = Spec(
    schema: string, manifest: Result<UntrustedManifest, CapsuleError>, allowedKeyIds: seq<string>, template: Capsule)

  /** Verify the manifest and take CPU and memory from it. */
  function IntoCapsule(spec: Spec, version: U64): Result<Capsule, ControlError> {
    if spec.schema != CONTROL_CAPSULE_SCHEMA then Err(Schema(CONTROL_CAPSULE_SCHEMA, spec.schema))
    else if spec.manifest.Err? then Err(CapsuleVerification(spec.manifest.error))
    else
      var t := spec.template;
      var verified := VerifyManifest(
        spec.manifest.value, spec.allowedKeyIds, version, t.policy.tenantMinBootPolicy);
      if verified.Err? then Err(CapsuleVerification(verified.error))
      else
        var m := verified.value;
        Ok(t.(manifest := m, vcpus := m.inner.vcpus, maxMb := m.inner.maxMb))
  }

  /** What admission guarantees of a capsule. */
  predicate Admitted(c: Capsule) {
    && c.maxMb == c.manifest.inner.maxMb && c.vcpus == c.manifest.inner.vcpus
    && c.manifest.signature == Valid && c.manifest.inner.signatures != []
  }

  /** Some signature of the manifest is by an accepted algorithm and a listed key. */
  predicate SignedByListed(m: UntrustedManifest, keys: seq<string>) {
    exists i | 0 <= i < |m.signatures| ::
      m.signatures[i].alg in {"ecdsa-p384", "ed25519", "ml-dsa-65"} && m.signatures[i].keyId in keys
  }

  /** Manifest, CPU and memory are the manifest's own, everything else is as the descriptor has it. */
  predicate FromDescriptor(c: Capsule, m: UntrustedManifest, t: Capsule) {
    && c.manifest == VerifiedManifest(m, Valid, Pass)
    && c.vcpus == m.vcpus && c.maxMb == m.maxMb
    && c.capsuleId == t.capsuleId && c.disks == t.disks && c.nics == t.nics && c.passthrough == t.passthrough
    && c.policy == t.policy && c.plan == t.plan
  }

  /**
   * Only signed capsules from a trusted key are admitted, with the manifest's own identity, CPU and memory and
   * everything else as the descriptor has it.
   */
  lemma AdmitsExactly(spec: Spec, version: U64)
    ensures IntoCapsule(spec, version).Ok? <==>
      && spec.schema == "chain.control.capsule.v1" && spec.manifest.Ok?
      && SignedByListed(spec.manifest.value, spec.allowedKeyIds)
      && spec.manifest.value.hypervisorMin <= version
      && spec.template.policy.tenantMinBootPolicy <= spec.manifest.value.bootPolicyVersion
    ensures IntoCapsule(spec, version).Ok? ==>
      var c := IntoCapsule(spec, version).value;
      Admitted(c) && c.VmId() == spec.manifest.value.vmId && FromDescriptor(c, spec.manifest.value, spec.template)
  {
    if spec.manifest.Ok? {
      assert SignedByListed(spec.manifest.value, spec.allowedKeyIds)
        <==> Trusted(spec.manifest.value, spec.allowedKeyIds);
    }
  }

  /** A refused descriptor: the schema comes first, then an unreadable manifest, then what verification says. */
  lemma AdmissionErrors(spec: Spec, version: U64)
    requires IntoCapsule(spec, version).Err?
    ensures
      var e := IntoCapsule(spec, version).error;
      if spec.schema != "chain.control.capsule.v1" then e == Schema("chain.control.capsule.v1", spec.schema)
      else if spec.manifest.Err? then e == CapsuleVerification(spec.manifest.error)
      else
        var m := spec.manifest.value;
        && (m.signatures == [] ==> e == CapsuleVerification(NoSignatures))
        && (m.signatures != [] && !SignedByListed(m, spec.allowedKeyIds) ==>
              e == CapsuleVerification(SignatureNotValid(Invalid)))
        && (SignedByListed(m, spec.allowedKeyIds) && version < m.hypervisorMin ==>
              e == CapsuleVerification(HypervisorTooOld(version, m.hypervisorMin)))
        && (SignedByListed(m, spec.allowedKeyIds) && m.hypervisorMin <= version ==>
              e == CapsuleVerification(
                BootPolicyRollback(m.bootPolicyVersion, spec.template.policy.tenantMinBootPolicy)))
  {
    if spec.manifest.Ok? {
      assert SignedByListed(spec.manifest.value, spec.allowedKeyIds)
        <==> Trusted(spec.manifest.value, spec.allowedKeyIds);
    }
  }

  // ---- Commands ---------------------------------------------------------------------

  /** The environment of the runtime and the texts of its errors. */
  datatype Setup = Setup(env: Env, describe: VmError -> string)

  datatype State = State(log: Log, registry: map<string, Stage>, snapshots: map<string, SnapshotReceipt>)

  type Outcome = (State, Result<(), ControlError>)

  function OnDefine(u: Setup, s: State, input: Result<Spec, string>): Outcome {
    if input.Err? then (s, Err(Json(input.error)))
    else
      var c := IntoCapsule(input.value, u.env.version);
      if c.Err? then (s, Err(c.error))
      else
        (s.(log := Define(u.env, s.log, c.value), registry := s.registry[c.value.VmId() := Defined(c.value)]),
         Ok(()))
  }

  function Reject(s: State, id: string, action: string, needed: string): Outcome
    requires id in s.registry
  {
    (s, Err(InvalidState(action, id, s.registry[id].Name(), needed)))
  }

  function Advance(s: State, log: Log, id: string, stage: Stage): Outcome {
    (s.(log := log, registry := s.registry[id := stage]), Ok(()))
  }

  function Fail(u: Setup, s: State, log: Log, id: string, e: VmError): Outcome {
    (s.(log := log, registry := s.registry[id := Failed(u.describe(e))]), Err(Lifecycle(e)))
  }

  function OnVerify(u: Setup, s: State, id: string): Outcome {
    if id !in s.registry then (s, Err(NotFound(id)))
    else if !s.registry[id].Defined? then Reject(s, id, "verify", "defined")
    else
      var (log, r) := Runtime.Verify(u.env, s.log, s.registry[id].c);
      if r.Err? then Fail(u, s, log, id, r.error) else Advance(s, log, id, Verified(s.registry[id].c))
  }

  function OnLaunch(u: Setup, s: State, id: string): Outcome {
    if id !in s.registry then (s, Err(NotFound(id)))
    else if !s.registry[id].Verified? then Reject(s, id, "launch", "verified")
    else
      var (log, r) := Launch(u.env, s.log, s.registry[id].c);
      if r.Err? then Fail(u, s, log, id, r.error) else Advance(s, log, id, Running(r.value))
  }

  function OnPause(u: Setup, s: State, id: string): Outcome {
    if id !in s.registry then (s, Err(NotFound(id)))
    else if !s.registry[id].Running? then Reject(s, id, "pause", "running")
    else
      var (log, p) := Pause(u.env, s.log, s.registry[id].running);
      Advance(s, log, id, Paused(p))
  }

  /** A running guest is paused first; either way the snapshot consumes it. */
  function OnSnapshot(u: Setup, s: State, id: string, name: string): Outcome {
    if id !in s.registry then (s, Err(NotFound(id)))
    else
      match s.registry[id]
      case Paused(p) => Snapshotting(u, s, s.log, id, p, name)
      case Running(vm) =>
        var (log, p) := Pause(u.env, s.log, vm);
        Snapshotting(u, s, log, id, p, name)
      case _ => Reject(s, id, "snapshot", "running|paused")
  }

  function Snapshotting(u: Setup, s: State, log: Log, id: string, p: PausedVm, name: string): Outcome {
    var (log', receipt) := TakeSnapshot(u.env, log, p);
    (State(log', s.registry[id := Snapshotted], s.snapshots[name := receipt]), Ok(()))
  }

  function OnStop(u: Setup, s: State, id: string): Outcome {
    if id !in s.registry then (s, Err(NotFound(id)))
    else if !s.registry[id].Running? then Reject(s, id, "stop", "running")
    else
      var (log, core) := Stop(u.env, s.log, s.registry[id].running);
      Advance(s, log, id, Stopped(core))
  }

  function OnDestroy(u: Setup, s: State, id: string, wipe: bool): Outcome {
    if id !in s.registry then (s, Err(NotFound(id)))
    else if !s.registry[id].Stopped? then Reject(s, id, "destroy", "stopped")
    else if !wipe then (s, Err(WipeRequired(id)))
    else
      var (log, _) := DestroyVm(u.env, s.log, s.registry[id].core);
      Advance(s, log, id, Destroyed)
  }

  datatype Command =
    | DoDefine(input: Result<Spec, string>)
    | DoVerify(id: string)
    | DoLaunch(id: string)
    | DoPause(id: string)
    | DoSnapshot(id: string, name: string)
    | DoStop(id: string)
    | DoDestroy(id: string, wipe: bool)

  function Step(u: Setup, s: State, cmd: Command): Outcome {
    match cmd
    case DoDefine(input) => OnDefine(u, s, input)
    case DoVerify(id) => OnVerify(u, s, id)
    case DoLaunch(id) => OnLaunch(u, s, id)
    case DoPause(id) => OnPause(u, s, id)
    case DoSnapshot(id, name) => OnSnapshot(u, s, id, name)
    case DoStop(id) => OnStop(u, s, id)
    case DoDestroy(id, wipe) => OnDestroy(u, s, id, wipe)
  }

  function Run(u: Setup, s: State, cmds: seq<Command>): State
    decreases cmds
  {
    if cmds == [] then s else Run(u, Step(u, s, cmds[0]).0, cmds[1..])
  }

  function Initial(hash: Receipts.Hash): State {
    State(Receipts.Log(hash, Receipts.GENESIS, []), map[], map[])
  }

  // ---- The script of a stage ----------------------------------------------------------

  function Allowed(e: Event): seq<Mark> { [MarkOf(e, "allow")] }

  /** The receipts about a machine, since its definition, by the time it is in a stage. */
  function Script(stage: Stage): seq<Mark>
    requires !stage.Failed?
  {
    match stage
    case Defined(_) => Allowed(Event.VmDefine)
    case Verified(_) => VerifiedScript()
    case Running(_) => LaunchedScript()
    case Paused(_) => LaunchedScript() + Allowed(Event.VmPause)
    case Stopped(_) => LaunchedScript() + Allowed(Event.VmStop)
    case Destroyed => LaunchedScript() + Allowed(Event.VmStop) + Allowed(Event.Destroy)
    case Snapshotted => LaunchedScript() + Allowed(Event.VmPause) + Allowed(Event.Snapshot)
  }

  function VerifiedScript(): seq<Mark> { Allowed(Event.VmDefine) + Allowed(Event.ManifestVerify) }

  function LaunchedScript(): seq<Mark> { VerifiedScript() + LaunchMarks() }

  /** Where a machine can have failed: at verification or during its launch. */
  predicate FailedTrail(trail: seq<Mark>) {
    || trail == Allowed(Event.VmDefine)
    || trail == Allowed(Event.VmDefine) + [MarkOf(Event.ManifestVerify, "deny")]
    || trail == VerifiedScript()
    || trail == VerifiedScript() + [MarkOf(Event.VmPrepare, "allow"), MarkOf(Event.KeyRelease, "deny")]
    || trail == VerifiedScript() + (KeyMarks() + [MarkOf(Event.DeviceAssign, "deny")])
    || trail == VerifiedScript() + KeyMarks()
  }

  predicate TrailFits(stage: Stage, trail: seq<Mark>) {
    if stage.Failed? then FailedTrail(trail) else trail == Script(stage)
  }

  // ---- What a stage guarantees ----------------------------------------------------------

  /** The machine is one that an admitted capsule became by passing every gate. */
  ghost predicate FromCapsule(u: Setup, core: Core) {
    exists c: Capsule :: Behind(u, core, c)
  }

  predicate Behind(u: Setup, core: Core, c: Capsule) {
    && Admitted(c) && Cleared(u.env.doc, u.env.version, c) && Launchable(u.env, c)
    && core.id == c.VmId()
    && OwnsRam(core.resources, c.VmId(), c.maxMb, c.policy.memoryBudgetMb)
    && core.key == u.env.kms.wrap(u.env.kms.policy, KeyRequest(u.env, c))
  }

  ghost predicate StageSound(u: Setup, id: string, stage: Stage) {
    match stage
    case Defined(c) => c.VmId() == id && Admitted(c)
    case Verified(c) => c.VmId() == id && Admitted(c) && Cleared(u.env.doc, u.env.version, c)
    case Running(vm) => vm.core.id == id && FromCapsule(u, vm.core)
    case Paused(p) => p.core.id == id && FromCapsule(u, p.core)
    case Stopped(core) => core.id == id && FromCapsule(u, core)
    case _ => true
  }

  ghost predicate Sound(u: Setup, s: State, id: string) {
    id in s.registry ==>
      StageSound(u, id, s.registry[id]) && TrailFits(s.registry[id], TrailOf(s.log.receipts, id))
  }

  ghost predicate Inv(u: Setup, s: State) {
    s.log.Valid() && forall id: string :: Sound(u, s, id)
  }

  // ---- One command ------------------------------------------------------------------------

  /** The id a successful definition registers, or the id a command names. */
  function Target(u: Setup, cmd: Command): Option<string> {
    match cmd
    case DoDefine(input) =>
      if input.Ok? && IntoCapsule(input.value, u.env.version).Ok?
      then Some(IntoCapsule(input.value, u.env.version).value.VmId()) else None
    case DoVerify(id) => Some(id)
    case DoLaunch(id) => Some(id)
    case DoPause(id) => Some(id)
    case DoSnapshot(id, _) => Some(id)
    case DoStop(id) => Some(id)
    case DoDestroy(id, _) => Some(id)
  }

  /** A command that is refused changes nothing at all. */
  lemma RefusedChangesNothing(u: Setup, s: State, cmd: Command)
    ensures Step(u, s, cmd).1.Err? && Refused(Step(u, s, cmd).1.error) ==> Step(u, s, cmd).0 == s
  {
    hide IntoCapsule;
    hide Launch;
    hide Runtime.Verify;
    hide Define;
    hide Pause;
    hide Stop;
    hide DestroyVm;
    hide TakeSnapshot;
    hide Stage.Name;
  }

  /** No id leaves the registry, no other machine's stage moves, and a terminal stage ends only by a new definition. */
  lemma OnlyTheTargetMoves(u: Setup, s: State, cmd: Command, id: string)
    requires id in s.registry
    ensures id in Step(u, s, cmd).0.registry
    ensures Target(u, cmd) != Some(id) ==> Step(u, s, cmd).0.registry[id] == s.registry[id]
    ensures s.registry[id].IsTerminal() && !cmd.DoDefine? ==> Step(u, s, cmd).0.registry[id] == s.registry[id]
  {
    hide IntoCapsule;
    hide Launch;
    hide Runtime.Verify;
    hide Define;
    hide Pause;
    hide Stop;
    hide DestroyVm;
    hide TakeSnapshot;
    hide Stage.Name;
  }

  /** Moving one machine to a sound stage whose trail fits keeps the invariant. */
  lemma MoveKeepsInv(u: Setup, s: State, t: State, id: string, marks: seq<Mark>, stage: Stage)
    requires Inv(u, s) && t.registry == s.registry[id := stage]
    requires Adds(s.log, t.log, id, marks)
    requires StageSound(u, id, stage) && TrailFits(stage, TrailOf(s.log.receipts, id) + marks)
    ensures Inv(u, t)
  {
    hide StageSound;
    hide TrailFits;
    hide TrailOf;
    forall other: string
      ensures Sound(u, t, other)
    {
      assert Sound(u, s, other);
    }
  }

  lemma DefineKeepsInv(u: Setup, s: State, c: Capsule)
    requires Inv(u, s) && Admitted(c)
    ensures Inv(u, s.(log := Define(u.env, s.log, c), registry := s.registry[c.VmId() := Defined(c)]))
  {
    hide Note;
    hide MarkOf;
    hide Grows;
    hide TrailOf;
    hide Admitted;
    hide FromCapsule;
    hide FailedTrail;
    var text := "define|" + c.capsuleId + "|" + c.ImageHash();
    var log := Define(u.env, s.log, c);
    DefineGrows(u, s, c);
    var t := s.(log := log, registry := s.registry[c.VmId() := Defined(c)]);
    forall id: string
      ensures Sound(u, t, id)
    {
      NoteTrail(u.env, s.log, Event.VmDefine, c.VmId(), "allow", text, id);
      assert Sound(u, s, id);
    }
  }

  lemma DefineGrows(u: Setup, s: State, c: Capsule)
    ensures s.log.Valid() <==> Define(u.env, s.log, c).Valid()
  {
    NoteGrows(u.env, s.log, Event.VmDefine, c.VmId(), "allow", "define|" + c.capsuleId + "|" + c.ImageHash());
  }

  lemma VerifyKeepsInv(u: Setup, s: State, id: string)
    requires Inv(u, s)
    ensures Inv(u, OnVerify(u, s, id).0)
  {
    hide Adds;
    hide MarkOf;
    hide Admitted;
    hide EngineAllows;
    hide GateAllows;
    hide Runtime.Verify;
    hide TrailOf;
    hide Stage.Name;
    assert Sound(u, s, id);
    if id in s.registry && s.registry[id].Defined? {
      var c := s.registry[id].c;
      var marks := VerifyTrail(u.env, c);
      VerifyAdds(u.env, s.log, c);
      VerifiesExactly(u.env, s.log, c);
      var t := OnVerify(u, s, id).0;
      var trail := TrailOf(s.log.receipts, id);
      assert trail + [] == trail;
      if Runtime.Verify(u.env, s.log, c).1.Ok? {
        MoveKeepsInv(u, s, t, id, marks, Verified(c));
      } else {
        assert FailedTrail(trail + marks);
        MoveKeepsInv(u, s, t, id, marks, t.registry[id]);
      }
    }
  }

  /** A launch that fails leaves a trail that a failed machine may have. */
  lemma BrokenFits(u: Setup, c: Capsule, trail: seq<Mark>)
    requires trail == VerifiedScript() && !Launchable(u.env, c)
    ensures FailedTrail(trail + LaunchTrail(u.env, c))
  {
    hide MarkOf;
    hide WithinMemory;
    hide KeyReleased;
    hide PassthroughAllowed;
    hide FitsBus;
    assert trail + [] == trail;
  }

  lemma StartedIsSound(u: Setup, c: Capsule, vm: RunningVm)
    requires Admitted(c) && Cleared(u.env.doc, u.env.version, c) && Launchable(u.env, c) && Started(u.env, c, vm)
    ensures StageSound(u, c.VmId(), Running(vm))
  {
    assert Behind(u, vm.core, c);
  }

  lemma LaunchKeepsInv(u: Setup, s: State, id: string)
    requires Inv(u, s)
    ensures Inv(u, OnLaunch(u, s, id).0)
  {
    hide Adds;
    hide MarkOf;
    hide Admitted;
    hide Cleared;
    hide Launchable;
    hide Started;
    hide FromCapsule;
    hide LaunchTrail;
    hide Launch;
    hide TrailOf;
    hide Stage.Name;
    assert Sound(u, s, id);
    if id in s.registry && s.registry[id].Verified? {
      var c := s.registry[id].c;
      var marks := LaunchTrail(u.env, c);
      LaunchAdds(u.env, s.log, c);
      var t := OnLaunch(u, s, id).0;
      LaunchesExactly(u.env, s.log, c);
      if Launch(u.env, s.log, c).1.Ok? {
        LaunchStarts(u.env, s.log, c);
        WholeTrail(u.env, c);
        StartedIsSound(u, c, Launch(u.env, s.log, c).1.value);
      } else {
        BrokenFits(u, c, TrailOf(s.log.receipts, id));
      }
      MoveKeepsInv(u, s, t, id, marks, t.registry[id]);
    }
  }

  lemma PauseKeepsInv(u: Setup, s: State, id: string)
    requires Inv(u, s)
    ensures Inv(u, OnPause(u, s, id).0)
  {
    hide Adds;
    hide MarkOf;
    hide FromCapsule;
    hide LaunchedScript;
    hide Note;
    hide TrailOf;
    hide Stage.Name;
    assert Sound(u, s, id);
    if id in s.registry && s.registry[id].Running? {
      var vm := s.registry[id].running;
      NoteAdds(u.env, s.log, Event.VmPause, id, "allow", "pause|" + id);
      MoveKeepsInv(u, s, OnPause(u, s, id).0, id, Allowed(Event.VmPause), Paused(Pause(u.env, s.log, vm).1));
    }
  }

  lemma StopKeepsInv(u: Setup, s: State, id: string)
    requires Inv(u, s)
    ensures Inv(u, OnStop(u, s, id).0)
  {
    hide Adds;
    hide MarkOf;
    hide FromCapsule;
    hide LaunchedScript;
    hide Note;
    hide TrailOf;
    hide Stage.Name;
    assert Sound(u, s, id);
    if id in s.registry && s.registry[id].Running? {
      NoteAdds(u.env, s.log, Event.VmStop, id, "allow", "stop|" + id);
      MoveKeepsInv(u, s, OnStop(u, s, id).0, id, Allowed(Event.VmStop), Stopped(s.registry[id].running.core));
    }
  }

  lemma DestroyKeepsInv(u: Setup, s: State, id: string, wipe: bool)
    requires Inv(u, s)
    ensures Inv(u, OnDestroy(u, s, id, wipe).0)
  {
    hide Adds;
    hide MarkOf;
    hide FromCapsule;
    hide LaunchedScript;
    hide Note;
    hide TornDown;
    hide TrailOf;
    hide Stage.Name;
    assert Sound(u, s, id);
    if id in s.registry && s.registry[id].Stopped? && wipe {
      NoteAdds(u.env, s.log, Event.Destroy, id, "allow", "destroy|" + id);
      MoveKeepsInv(u, s, OnDestroy(u, s, id, wipe).0, id, Allowed(Event.Destroy), Destroyed);
    }
  }

  /** Snapshots keep the invariant whether the guest was paused before or is paused by them. */
  lemma SnapshotKeepsInv(u: Setup, s: State, id: string, name: string)
    requires Inv(u, s)
    ensures Inv(u, OnSnapshot(u, s, id, name).0)
  {
    hide FromCapsule;
    hide MarkOf;
    hide Snapshotting;
    hide Note;
    hide TrailOf;
    hide Inv;
    hide Stage.Name;
    if id in s.registry && s.registry[id].Running? {
      var vm := s.registry[id].running;
      var (log, p) := Pause(u.env, s.log, vm);
      PauseKeepsInv(u, s, id);
      var paused := OnPause(u, s, id).0;
      assert paused == State(log, s.registry[id := Paused(p)], s.snapshots);
      SnapshottingKeepsInv(u, paused, id, name);
      assert s.registry[id := Paused(p)][id := Snapshotted] == s.registry[id := Snapshotted];
      SnapshottingSame(u, s, paused, log, id, p, name);
    } else if id in s.registry && s.registry[id].Paused? {
      SnapshottingKeepsInv(u, s, id, name);
    }
  }

  lemma SnapshottingSame(u: Setup, s: State, t: State, log: Log, id: string, p: PausedVm, name: string)
    requires t.registry[id := Snapshotted] == s.registry[id := Snapshotted] && t.snapshots == s.snapshots
    ensures Snapshotting(u, s, log, id, p, name) == Snapshotting(u, t, log, id, p, name)
  {
  }

  lemma SnapshottingKeepsInv(u: Setup, s: State, id: string, name: string)
    requires Inv(u, s) && id in s.registry && s.registry[id].Paused?
    ensures Inv(u, Snapshotting(u, s, s.log, id, s.registry[id].paused, name).0)
  {
    hide Adds;
    hide MarkOf;
    hide FromCapsule;
    hide LaunchedScript;
    hide Note;
    hide TrailOf;
    assert Sound(u, s, id);
    NoteAdds(u.env, s.log, Event.Snapshot, id, "allow", "snapshot|" + id);
    var t := Snapshotting(u, s, s.log, id, s.registry[id].paused, name).0;
    MoveKeepsInv(u, s, t, id, Allowed(Event.Snapshot), Snapshotted);
  }

  lemma StepKeepsInv(u: Setup, s: State, cmd: Command)
    requires Inv(u, s)
    ensures Inv(u, Step(u, s, cmd).0)
  {
    hide Inv;
    hide OnVerify;
    hide OnLaunch;
    hide OnPause;
    hide OnSnapshot;
    hide OnStop;
    hide OnDestroy;
    hide IntoCapsule;
    hide Define;
    match cmd
    case DoDefine(input) =>
      if input.Ok? {
        AdmitsExactly(input.value, u.env.version);
        if IntoCapsule(input.value, u.env.version).Ok? {
          DefineKeepsInv(u, s, IntoCapsule(input.value, u.env.version).value);
        }
      }
    case DoVerify(id) => VerifyKeepsInv(u, s, id);
    case DoLaunch(id) => LaunchKeepsInv(u, s, id);
    case DoPause(id) => PauseKeepsInv(u, s, id);
    case DoSnapshot(id, name) => SnapshotKeepsInv(u, s, id, name);
    case DoStop(id) => StopKeepsInv(u, s, id);
    case DoDestroy(id, wipe) => DestroyKeepsInv(u, s, id, wipe);
  }

  // ---- Whole runs ---------------------------------------------------------------------------

  /**
   * After every sequence of commands the chain verifies, and for every registered machine the
   * receipts since its definition are exactly the script of the stage it is in.
   */
  lemma {:induction false} ReachableInv(u: Setup, s: State, cmds: seq<Command>)
    requires Inv(u, s)
    ensures Inv(u, Run(u, s, cmds))
    ensures s.registry.Keys <= Run(u, s, cmds).registry.Keys
    decreases cmds
  {
    hide Inv;
    hide Step;
    if cmds != [] {
      StepKeepsInv(u, s, cmds[0]);
      forall id: string | id in s.registry
        ensures id in Step(u, s, cmds[0]).0.registry
      {
        OnlyTheTargetMoves(u, s, cmds[0], id);
      }
      ReachableInv(u, Step(u, s, cmds[0]).0, cmds[1..]);
    }
  }

  lemma InitialInv(u: Setup, hash: Receipts.Hash)
    ensures Inv(u, Initial(hash))
  {
  }

  /** The resources and key of a stage that still holds them. */
  function CoreOf(stage: Stage): Core
    requires stage.Running? || stage.Paused? || stage.Stopped?
  {
    match stage
    case Running(vm) => vm.core
    case Paused(p) => p.core
    case Stopped(core) => core
  }

  lemma CapsuleBehind(u: Setup, id: string, stage: Stage) returns (c: Capsule)
    requires (stage.Running? || stage.Paused? || stage.Stopped?) && StageSound(u, id, stage)
    ensures Behind(u, CoreOf(stage), c) && c.VmId() == id
  {
    hide Behind;
    assert FromCapsule(u, CoreOf(stage)) && CoreOf(stage).id == id;
    c :| Behind(u, CoreOf(stage), c);
    BehindHasId(u, CoreOf(stage), c);
  }

  lemma BehindHasId(u: Setup, core: Core, c: Capsule)
    requires Behind(u, core, c)
    ensures core.id == c.VmId()
  {
  }

  predicate HasRun(stage: Stage) {
    stage.Running? || stage.Paused? || stage.Stopped? || stage.Snapshotted? || stage.Destroyed?
  }

  /**
   * In every reachable state, a machine that runs or has run was allowed, in this order and with
   * nothing in between, its definition, verification, memory, key, devices and launch.
   */
  lemma RunningWasAllowed(u: Setup, hash: Receipts.Hash, cmds: seq<Command>, id: string)
    requires id in Run(u, Initial(hash), cmds).registry && HasRun(Run(u, Initial(hash), cmds).registry[id])
    ensures
      var trail := TrailOf(Run(u, Initial(hash), cmds).log.receipts, id);
      |trail| >= 6 && trail[..6] ==
        [ MarkOf(Event.VmDefine, "allow"), MarkOf(Event.ManifestVerify, "allow"), MarkOf(Event.VmPrepare, "allow"),
          MarkOf(Event.KeyRelease, "allow"), MarkOf(Event.DeviceAssign, "allow"), MarkOf(Event.VmLaunch, "allow") ]
    ensures Run(u, Initial(hash), cmds).log.Valid()
  {
    hide MarkOf;
    hide FailedTrail;
    hide StageSound;
    hide TrailOf;
    hide Run;
    InitialInv(u, hash);
    ReachableInv(u, Initial(hash), cmds);
    assert Sound(u, Run(u, Initial(hash), cmds), id);
  }

  /** In every reachable state, a machine that still holds resources was built from a capsule that passed every gate. */
  lemma RunningPassedGates(u: Setup, hash: Receipts.Hash, cmds: seq<Command>, id: string) returns (c: Capsule)
    requires id in Run(u, Initial(hash), cmds).registry
    requires
      var stage := Run(u, Initial(hash), cmds).registry[id];
      stage.Running? || stage.Paused? || stage.Stopped?
    ensures c.VmId() == id && Admitted(c) && Cleared(u.env.doc, u.env.version, c) && Launchable(u.env, c)
    ensures
      var stage := Run(u, Initial(hash), cmds).registry[id];
      Behind(u, CoreOf(stage), c)
  {
    hide TrailFits;
    hide TrailOf;
    hide Run;
    InitialInv(u, hash);
    ReachableInv(u, Initial(hash), cmds);
    assert Sound(u, Run(u, Initial(hash), cmds), id);
    var stage := Run(u, Initial(hash), cmds).registry[id];
    c := CapsuleBehind(u, id, stage);
  }

  /**
   * Destroying a stopped machine of any run leaves its memory zeroed and unmapped, its quota free
   * and its key all zero.
   */
  lemma DestroyLeavesNothing(u: Setup, hash: Receipts.Hash, cmds: seq<Command>, id: string) returns (mb: U64)
    requires id in Run(u, Initial(hash), cmds).registry && Run(u, Initial(hash), cmds).registry[id].Stopped?
    ensures
      var s := Run(u, Initial(hash), cmds);
      var gone := DestroyVm(u.env, s.log, s.registry[id].core).1;
      && OnDestroy(u, s, id, true).0.registry[id] == Destroyed
      && Scrubbed(gone.resources, mb)
      && s.registry[id].core.resources.reservedMb == mb
      && gone.key == Zeros(|s.registry[id].core.key|)
  {
    hide Scrubbed;
    hide TornDown;
    hide Run;
    hide Note;
    hide Cleared;
    var c := RunningPassedGates(u, hash, cmds, id);
    mb := c.maxMb;
    DestroyScrubs(Run(u, Initial(hash), cmds).registry[id].core.resources, id, mb, c.policy.memoryBudgetMb);
  }

  /** For admitted capsules the launch gate and the allocator agree: only the reserved range can still refuse memory. */
  lemma GateAndAllocatorAgree(u: Setup, c: Capsule)
    requires Admitted(c) && Cleared(u.env.doc, u.env.version, c)
    ensures AllocateRam(c.VmId(), c.maxMb, c.policy.memoryBudgetMb).Ok? <==> c.maxMb <= LARGEST_MB
  {
    RamExactly(c.VmId(), c.maxMb, c.policy.memoryBudgetMb);
  }

  /** The log is append-only: no command rewrites or drops a receipt. */
  lemma StepGrows(u: Setup, s: State, cmd: Command)
    ensures Grows(s.log, Step(u, s, cmd).0.log)
  {
    hide Grows;
    hide Note;
    hide IntoCapsule;
    hide Launch;
    hide Runtime.Verify;
    hide TornDown;
    hide Stage.Name;
    GrowsStays(s.log);
    match cmd
    case DoDefine(input) =>
      if input.Ok? && IntoCapsule(input.value, u.env.version).Ok? {
        var c := IntoCapsule(input.value, u.env.version).value;
        NoteGrows(u.env, s.log, Event.VmDefine, c.VmId(), "allow", "define|" + c.capsuleId + "|" + c.ImageHash());
      }
    case DoVerify(id) =>
      if id in s.registry && s.registry[id].Defined? {
        VerifyAdds(u.env, s.log, s.registry[id].c);
      }
    case DoLaunch(id) =>
      if id in s.registry && s.registry[id].Verified? {
        LaunchAdds(u.env, s.log, s.registry[id].c);
      }
    case DoPause(id) =>
      if id in s.registry && s.registry[id].Running? {
        var owner := s.registry[id].running.core.id;
        NoteGrows(u.env, s.log, Event.VmPause, owner, "allow", "pause|" + owner);
      }
    case DoSnapshot(id, name) => SnapshotGrows(u, s, id, name);
    case DoStop(id) =>
      if id in s.registry && s.registry[id].Running? {
        var owner := s.registry[id].running.core.id;
        NoteGrows(u.env, s.log, Event.VmStop, owner, "allow", "stop|" + owner);
      }
    case DoDestroy(id, wipe) =>
      if id in s.registry && s.registry[id].Stopped? {
        var owner := s.registry[id].core.id;
        NoteGrows(u.env, s.log, Event.Destroy, owner, "allow", "destroy|" + owner);
      }
  }

  lemma GrowsStays(log: Log)
    ensures Grows(log, log)
  {
  }

  lemma GrowsTwice(a: Log, b: Log, c: Log)
    requires Grows(a, b) && Grows(b, c)
    ensures Grows(a, c)
  {
    assert a.receipts <= c.receipts;
  }

  lemma SnapshotGrows(u: Setup, s: State, id: string, name: string)
    ensures Grows(s.log, OnSnapshot(u, s, id, name).0.log)
  {
    hide Grows;
    hide Note;
    hide Stage.Name;
    GrowsStays(s.log);
    if id in s.registry && s.registry[id].Paused? {
      var owner := s.registry[id].paused.core.id;
      NoteGrows(u.env, s.log, Event.Snapshot, owner, "allow", "snapshot|" + owner);
    } else if id in s.registry && s.registry[id].Running? {
      var vm := s.registry[id].running;
      var owner := vm.core.id;
      var paused := Pause(u.env, s.log, vm).0;
      NoteGrows(u.env, s.log, Event.VmPause, owner, "allow", "pause|" + owner);
      NoteGrows(u.env, paused, Event.Snapshot, owner, "allow", "snapshot|" + owner);
      GrowsTwice(s.log, paused, OnSnapshot(u, s, id, name).0.log);
    }
  }

  /** The command defines `id` anew. */
  predicate Redefines(u: Setup, cmd: Command, id: string) {
    cmd.DoDefine? && Target(u, cmd) == Some(id)
  }

  /** Over a whole run, receipts are only ever added. */
  lemma {:induction false} RunGrows(u: Setup, s: State, cmds: seq<Command>)
    ensures Grows(s.log, Run(u, s, cmds).log)
    decreases cmds
  {
    hide Step;
    hide Grows;
    GrowsStays(s.log);
    if cmds != [] {
      var t := Step(u, s, cmds[0]).0;
      StepGrows(u, s, cmds[0]);
      RunGrows(u, t, cmds[1..]);
      GrowsTwice(s.log, t.log, Run(u, t, cmds[1..]).log);
    }
  }

  /** A terminal stage lasts until the id is defined again. */
  lemma {:induction false} TerminalLasts(u: Setup, s: State, cmds: seq<Command>, id: string)
    requires id in s.registry && s.registry[id].IsTerminal()
    requires forall i | 0 <= i < |cmds| :: !Redefines(u, cmds[i], id)
    ensures id in Run(u, s, cmds).registry && Run(u, s, cmds).registry[id] == s.registry[id]
    decreases cmds
  {
    hide Step;
    hide Target;
    if cmds != [] {
      OnlyTheTargetMoves(u, s, cmds[0], id);
      TerminalLasts(u, Step(u, s, cmds[0]).0, cmds[1..], id);
    }
  }

  // ---- From a descriptor to a running machine -----------------------------------------------

  /** Define a descriptor, verify it and launch it. */
  function DefineVerifyLaunch(spec: Spec, id: string): seq<Command> {
    [DoDefine(Ok(spec)), DoVerify(id), DoLaunch(id)]
  }

  lemma RunThree(u: Setup, s: State, a: Command, b: Command, c: Command)
    ensures Run(u, s, [a, b, c]) == Step(u, Step(u, Step(u, s, a).0, b).0, c).0
  {
    hide Step;
    assert [a, b, c][1..] == [b, c] && [b, c][1..] == [c];
    assert Run(u, s, [a, b, c]) == Run(u, Step(u, s, a).0, [b, c]);
    assert Run(u, Step(u, s, a).0, [b, c]) == Run(u, Step(u, Step(u, s, a).0, b).0, [c]);
  }

  /** After its definition a machine holds the admitted capsule, and its trail starts anew. */
  lemma AfterDefine(u: Setup, s: State, spec: Spec)
    requires IntoCapsule(spec, u.env.version).Ok?
    ensures
      var c := IntoCapsule(spec, u.env.version).value;
      var t := Step(u, s, DoDefine(Ok(spec))).0;
      && c.VmId() in t.registry && t.registry[c.VmId()] == Defined(c)
      && TrailOf(t.log.receipts, c.VmId()) == Allowed(Event.VmDefine)
  {
    hide IntoCapsule;
    hide Note;
    hide MarkOf;
    hide TrailOf;
    var c := IntoCapsule(spec, u.env.version).value;
    NoteTrail(u.env, s.log, Event.VmDefine, c.VmId(), "allow", "define|" + c.capsuleId + "|" + c.ImageHash(), c.VmId());
  }

  lemma AfterVerify(u: Setup, s: State, id: string, c: Capsule)
    requires id in s.registry && s.registry[id] == Defined(c) && c.VmId() == id
    ensures
      var t := Step(u, s, DoVerify(id)).0;
      && id in t.registry
      && (if Cleared(u.env.doc, u.env.version, c) then t.registry[id] == Verified(c) else t.registry[id].Failed?)
      && TrailOf(t.log.receipts, id) == TrailOf(s.log.receipts, id) + VerifyTrail(u.env, c)
  {
    hide Runtime.Verify;
    hide Cleared;
    hide VerifyTrail;
    hide TrailOf;
    VerifyAdds(u.env, s.log, c);
    VerifiesExactly(u.env, s.log, c);
  }

  lemma AfterLaunch(u: Setup, s: State, id: string, c: Capsule)
    requires id in s.registry && s.registry[id] == Verified(c) && c.VmId() == id
    ensures
      var t := Step(u, s, DoLaunch(id)).0;
      && id in t.registry
      && (if Launchable(u.env, c) then t.registry[id].Running? else t.registry[id].Failed?)
      && TrailOf(t.log.receipts, id) == TrailOf(s.log.receipts, id) + LaunchTrail(u.env, c)
  {
    hide Launch;
    hide Launchable;
    hide LaunchTrail;
    hide TrailOf;
    LaunchAdds(u.env, s.log, c);
    LaunchesExactly(u.env, s.log, c);
  }

  /** What a launch asks, in the fields of the descriptor and the runtime's policies. */
  predicate LaunchConditions(u: Setup, m: UntrustedManifest, t: Capsule) {
    && m.maxMb <= t.policy.memoryBudgetMb && m.maxMb <= 251654144
    && t.plan.bootPolicyHash == u.env.kms.policy.expectedBootPolicyHash
    && Attest.Satisfies(t.plan.pcrs, u.env.kms.policy.expectedPcrs)
    && t.plan.capsuleHash in u.env.kms.policy.allowedCapsuleHashes
    && u.env.kms.policy.minHypervisorVersion <= u.env.version
    && (t.passthrough == [] || u.env.doc.allowPassthrough)
    && t.disks + t.nics <= 0x10_0000_0000_0000
  }

  /**
   * Defined, verified and launched in a row, a cleared descriptor ends running exactly if it meets the
   * launch conditions, with its receipts and no others about it since the definition.
   */
  lemma DescriptorRuns(u: Setup, s: State, spec: Spec)
    requires IntoCapsule(spec, u.env.version).Ok?
    requires Cleared(u.env.doc, u.env.version, IntoCapsule(spec, u.env.version).value)
    ensures
      var c, id := IntoCapsule(spec, u.env.version).value, spec.manifest.value.vmId;
      var t := Run(u, s, DefineVerifyLaunch(spec, id));
      && id in t.registry
      && (if LaunchConditions(u, spec.manifest.value, spec.template) then t.registry[id].Running?
          else t.registry[id].Failed?)
      && TrailOf(t.log.receipts, id) == VerifiedScript() + LaunchTrail(u.env, c)
  {
    hide IntoCapsule;
    hide Step;
    hide Run;
    hide TrailOf;
    hide MarkOf;
    hide LaunchTrail;
    hide EngineAllows;
    hide GateAllows;
    hide Attest.Satisfies;
    AdmitsExactly(spec, u.env.version);
    var c, id := IntoCapsule(spec, u.env.version).value, spec.manifest.value.vmId;
    RunThree(u, s, DoDefine(Ok(spec)), DoVerify(id), DoLaunch(id));
    var s1 := Step(u, s, DoDefine(Ok(spec))).0;
    AfterDefine(u, s, spec);
    AfterVerify(u, s1, id, c);
    AfterLaunch(u, Step(u, s1, DoVerify(id)).0, id, c);
  }

  /**
   * A descriptor with passthrough devices under a policy that forbids them, launched with everything else in
   * order, ends failed, with the denial of the assignment as its last receipt.
   */
  lemma ForbiddenPassthroughFails(u: Setup, s: State, spec: Spec)
    requires IntoCapsule(spec, u.env.version).Ok?
    requires Cleared(u.env.doc, u.env.version, IntoCapsule(spec, u.env.version).value)
    requires
      var m, t := spec.manifest.value, spec.template;
      && LaunchConditions(u, m, t.(passthrough := []))
      && t.passthrough != [] && !u.env.doc.allowPassthrough
    ensures
      var id := spec.manifest.value.vmId;
      var t := Run(u, s, DefineVerifyLaunch(spec, id));
      && id in t.registry && t.registry[id].Failed?
      && TrailOf(t.log.receipts, id) ==
           [ Mark("vm_define", "allow"), Mark("manifest_verify", "allow"), Mark("vm_prepare", "allow"),
             Mark("key_release", "allow"), Mark("device_assign", "deny") ]
  {
    hide IntoCapsule;
    hide Run;
    hide TrailOf;
    hide Attest.Satisfies;
    AdmitsExactly(spec, u.env.version);
    DescriptorRuns(u, s, spec);
  }

  // ---- When a command succeeds, and where it leads -----------------------------------------------

  /** What each command needs: the right stage, and every gate of its transition. */
  predicate Enabled(u: Setup, s: State, cmd: Command) {
    match cmd
    case DoDefine(input) => input.Ok? && IntoCapsule(input.value, u.env.version).Ok?
    case DoVerify(id) =>
      id in s.registry && s.registry[id].Defined? && Cleared(u.env.doc, u.env.version, s.registry[id].c)
    case DoLaunch(id) => id in s.registry && s.registry[id].Verified? && Launchable(u.env, s.registry[id].c)
    case DoPause(id) => id in s.registry && s.registry[id].Running?
    case DoSnapshot(id, _) => id in s.registry && (s.registry[id].Running? || s.registry[id].Paused?)
    case DoStop(id) => id in s.registry && s.registry[id].Running?
    case DoDestroy(id, wipe) => id in s.registry && s.registry[id].Stopped? && wipe
  }

  /** A command succeeds exactly when it is enabled. */
  lemma SucceedsExactly(u: Setup, s: State, cmd: Command)
    ensures Step(u, s, cmd).1.Ok? <==> Enabled(u, s, cmd)
  {
    hide IntoCapsule;
    hide Cleared;
    hide Launchable;
    hide Launch;
    hide Runtime.Verify;
    hide Define;
    hide Pause;
    hide Stop;
    hide DestroyVm;
    hide TakeSnapshot;
    hide Stage.Name;
    match cmd
    case DoVerify(id) =>
      if id in s.registry && s.registry[id].Defined? {
        VerifiesExactly(u.env, s.log, s.registry[id].c);
      }
    case DoLaunch(id) =>
      if id in s.registry && s.registry[id].Verified? {
        LaunchesExactly(u.env, s.log, s.registry[id].c);
      }
    case _ =>
  }

  /** A command is refused for an unknown id, for a stage it does not fit, or for a missing wipe flag. */
  lemma RefusalsExactly(u: Setup, s: State, cmd: Command, id: string)
    requires !cmd.DoDefine? && Target(u, cmd) == Some(id)
    ensures id !in s.registry ==> Step(u, s, cmd).1 == Err(NotFound(id))
    ensures id in s.registry ==>
      var found, r := s.registry[id], Step(u, s, cmd).1;
      match cmd
      case DoVerify(_) => !found.Defined? ==> r == Err(InvalidState("verify", id, found.Name(), "defined"))
      case DoLaunch(_) => !found.Verified? ==> r == Err(InvalidState("launch", id, found.Name(), "verified"))
      case DoPause(_) => !found.Running? ==> r == Err(InvalidState("pause", id, found.Name(), "running"))
      case DoSnapshot(_, _) =>
        !found.Running? && !found.Paused? ==> r == Err(InvalidState("snapshot", id, found.Name(), "running|paused"))
      case DoStop(_) => !found.Running? ==> r == Err(InvalidState("stop", id, found.Name(), "running"))
      case DoDestroy(_, wipe) =>
        && (!found.Stopped? ==> r == Err(InvalidState("destroy", id, found.Name(), "stopped")))
        && (found.Stopped? && !wipe ==> r == Err(WipeRequired(id)))
      case DoDefine(_) => true
  {
    hide Launch;
    hide Runtime.Verify;
    hide Pause;
    hide Stop;
    hide DestroyVm;
    hide TakeSnapshot;
    hide Stage.Name;
  }

  /** A successful snapshot files the id and the hash of the receipt now last under its name; nothing else files one. */
  lemma SnapshotIsFiled(u: Setup, s: State, cmd: Command)
    ensures
      var (t, r) := Step(u, s, cmd);
      if cmd.DoSnapshot? && r.Ok? then
        var n := |t.log.receipts|;
        && n > 0 && t.log.receipts[n - 1].body.event == "snapshot"
        && cmd.name in t.snapshots && t.snapshots[cmd.name].receiptId == t.log.receipts[n - 1].id
        && t.snapshots[cmd.name].chainHead == t.log.receipts[n - 1].hash
        && t.snapshots == s.snapshots[cmd.name := t.snapshots[cmd.name]]
      else t.snapshots == s.snapshots
  {
    hide IntoCapsule;
    hide Launch;
    hide Runtime.Verify;
    hide Define;
    hide Pause;
    hide Stop;
    hide DestroyVm;
    hide TakeSnapshot;
    hide Stage.Name;
    if cmd.DoSnapshot? && cmd.id in s.registry {
      match s.registry[cmd.id]
      case Running(vm) =>
        var (log, p) := Pause(u.env, s.log, vm);
        SnapshotNamesTheHead(u.env, log, p);
      case Paused(p) => SnapshotNamesTheHead(u.env, s.log, p);
      case _ =>
    }
  }

  /** A transition that fails marks its own machine failed, with the text of the error that is returned. */
  lemma FailureIsMarked(u: Setup, s: State, cmd: Command)
    ensures
      var (t, r) := Step(u, s, cmd);
      r.Err? && r.error.Lifecycle? ==>
        && (cmd.DoVerify? || cmd.DoLaunch?) && cmd.id in s.registry
        && t.registry == s.registry[cmd.id := Failed(u.describe(r.error.vmError))]
  {
    hide IntoCapsule;
    hide Launch;
    hide Runtime.Verify;
    hide Define;
    hide Pause;
    hide Stop;
    hide DestroyVm;
    hide TakeSnapshot;
    hide Stage.Name;
    if cmd.DoDefine? && cmd.input.Ok? && IntoCapsule(cmd.input.value, u.env.version).Err? {
      AdmissionErrors(cmd.input.value, u.env.version);
      assert !IntoCapsule(cmd.input.value, u.env.version).error.Lifecycle?;
    }
  }

  /** The transitions of the lifecycle. */
  predicate Edge(before: Stage, after: Stage) {
    || after.Defined?
    || (before.Defined? && (after == Verified(before.c) || after.Failed?))
    || (before.Verified? && (after.Running? || after.Failed?))
    || (before.Running? && (after.Paused? || after.Stopped? || after.Snapshotted?)
        && (after.Paused? ==> after.paused.core == before.running.core)
        && (after.Stopped? ==> after.core == before.running.core))
    || (before.Paused? && after.Snapshotted?)
    || (before.Stopped? && after.Destroyed?)
  }

  /** A registered machine stays where it is or takes one edge, carrying its resources and key along. */
  lemma OneEdgeAtATime(u: Setup, s: State, cmd: Command, id: string)
    requires id in s.registry
    ensures id in Step(u, s, cmd).0.registry
    ensures Step(u, s, cmd).0.registry[id] == s.registry[id] || Edge(s.registry[id], Step(u, s, cmd).0.registry[id])
  {
    hide IntoCapsule;
    hide Launch;
    hide Runtime.Verify;
    hide Define;
    hide DestroyVm;
    hide TakeSnapshot;
    hide Note;
    hide Everywhere;
    hide Stage.Name;
  }

  /** The chain alone tells the stage of every machine that has not failed. */
  lemma ScriptTellsStage(a: Stage, b: Stage)
    requires !a.Failed? && !b.Failed? && Script(a) == Script(b)
    ensures a.Name() == b.Name()
  {
    hide MarkOf;
    EndsDiffer();
    LastMark(a);
    LastMark(b);
  }

  function Last(stage: Stage): (m: (nat, Event))
    requires !stage.Failed?
  {
    match stage
    case Defined(_) => (1, Event.VmDefine)
    case Verified(_) => (2, Event.ManifestVerify)
    case Running(_) => (6, Event.VmLaunch)
    case Paused(_) => (7, Event.VmPause)
    case Stopped(_) => (7, Event.VmStop)
    case Destroyed => (8, Event.Destroy)
    case Snapshotted => (8, Event.Snapshot)
  }

  lemma LastMark(stage: Stage)
    requires !stage.Failed?
    ensures |Script(stage)| == Last(stage).0
    ensures Script(stage)[|Script(stage)| - 1] == MarkOf(Last(stage).1, "allow")
  {
    hide MarkOf;
  }

  lemma EndsDiffer()
    ensures MarkOf(Event.VmPause, "allow") != MarkOf(Event.VmStop, "allow")
    ensures MarkOf(Event.Destroy, "allow") != MarkOf(Event.Snapshot, "allow")
  {
    assert |Event.VmPause.Name()| != |Event.VmStop.Name()|;
    assert |Event.Destroy.Name()| != |Event.Snapshot.Name()|;
  }

  // ---- The control plane as an object ----------------------------------------------------------

  class ControlPlane {
    const u: Setup
    const runtime: SlateRuntime
    var registry: map<string, Stage>
    var snapshots: map<string, SnapshotReceipt>

    ghost predicate Valid() { runtime.env == u.env }

    ghost function Value(): State
      reads this, runtime.chain
    {
      State(runtime.chain.Value(), registry, snapshots)
    }

    constructor (u: Setup, hash: Receipts.Hash)
      ensures this.u == u && Valid() && fresh(runtime) && fresh(runtime.chain)
      ensures Value() == Initial(hash)
    {
      this.u := u;
      runtime := new SlateRuntime(u.env, hash);
      registry := map[];
      snapshots := map[];
    }

    /** Take a stage out of the registry; every path puts one back. */
    method Take(id: string) returns (r: Result<Stage, ControlError>)
      modifies this
      ensures snapshots == old(snapshots)
      ensures id !in old(registry) ==> r == Err(NotFound(id)) && registry == old(registry)
      ensures id in old(registry) ==> r == Ok(old(registry)[id]) && registry == old(registry) - {id}
    {
      if id !in registry {
        return Err(NotFound(id));
      }
      r := Ok(registry[id]);
      registry := registry - {id};
    }

    method PutBack(id: string, action: string, needed: string, stage: Stage) returns (e: ControlError)
      modifies this
      ensures snapshots == old(snapshots) && registry == old(registry)[id := stage]
      ensures e == InvalidState(action, id, stage.Name(), needed)
    {
      var found := stage.Name();
      registry := registry[id := stage];
      e := InvalidState(action, id, found, needed);
    }

    method DefineCommand(input: Result<Spec, string>) returns (r: Result<(), ControlError>)
      requires Valid()
      modifies this, runtime.chain
      ensures (Value(), r) == OnDefine(u, old(Value()), input)
      ensures r.Ok? ==>
        && input.Ok? && input.value.manifest.Ok?
        && var m, t := input.value.manifest.value, input.value.template;
        && m.vmId in registry && registry == old(registry)[m.vmId := registry[m.vmId]]
        && registry[m.vmId].Defined? && FromDescriptor(registry[m.vmId].c, m, t)
    {
      hide IntoCapsule;
      if input.Ok? {
        AdmitsExactly(input.value, u.env.version);
      }
      hide Define;
      match input
      case Err(text) => r := Err(Json(text));
      case Ok(spec) =>
        var capsule := IntoCapsule(spec, u.env.version);
        if capsule.Err? {
          return Err(capsule.error);
        }
        runtime.DefineVm(capsule.value);
        registry := registry[capsule.value.VmId() := Defined(capsule.value)];
        r := Ok(());
    }

    method VerifyCommand(id: string) returns (r: Result<(), ControlError>)
      requires Valid()
      modifies this, runtime.chain
      ensures (Value(), r) == OnVerify(u, old(Value()), id)
    {
      hide Runtime.Verify;
      hide Stage.Name;
      var stage := Take(id);
      if stage.Err? {
        return Err(stage.error);
      }
      if !stage.value.Defined? {
        var e := PutBack(id, "verify", "defined", stage.value);
        assert registry == old(registry);
        return Err(e);
      }
      var verified := runtime.VerifyVm(stage.value.c);
      if verified.Err? {
        registry := registry[id := Failed(u.describe(verified.error))];
        assert registry == old(registry)[id := Failed(u.describe(verified.error))];
        return Err(Lifecycle(verified.error));
      }
      registry := registry[id := Verified(stage.value.c)];
      assert registry == old(registry)[id := Verified(stage.value.c)];
      r := Ok(());
    }

    method LaunchCommand(id: string) returns (r: Result<(), ControlError>)
      requires Valid()
      modifies this, runtime.chain
      ensures (Value(), r) == OnLaunch(u, old(Value()), id)
    {
      hide Launch;
      hide Stage.Name;
      var stage := Take(id);
      if stage.Err? {
        return Err(stage.error);
      }
      if !stage.value.Verified? {
        var e := PutBack(id, "launch", "verified", stage.value);
        assert registry == old(registry);
        return Err(e);
      }
      var running := runtime.LaunchVm(stage.value.c);
      if running.Err? {
        registry := registry[id := Failed(u.describe(running.error))];
        assert registry == old(registry)[id := Failed(u.describe(running.error))];
        return Err(Lifecycle(running.error));
      }
      registry := registry[id := Running(running.value)];
      assert registry == old(registry)[id := Running(running.value)];
      r := Ok(());
    }

    method PauseCommand(id: string) returns (r: Result<(), ControlError>)
      requires Valid()
      modifies this, runtime.chain
      ensures (Value(), r) == OnPause(u, old(Value()), id)
    {
      hide Pause;
      hide Stage.Name;
      var stage := Take(id);
      if stage.Err? {
        return Err(stage.error);
      }
      if !stage.value.Running? {
        var e := PutBack(id, "pause", "running", stage.value);
        assert registry == old(registry);
        return Err(e);
      }
      var paused := runtime.PauseVm(stage.value.running);
      registry := registry[id := Paused(paused)];
      assert registry == old(registry)[id := Paused(paused)];
      r := Ok(());
    }

    method SnapshotCommand(id: string, name: string) returns (r: Result<(), ControlError>)
      requires Valid()
      modifies this, runtime.chain
      ensures (Value(), r) == OnSnapshot(u, old(Value()), id, name)
    {
      hide Pause;
      hide TakeSnapshot;
      hide Stage.Name;
      hide Receipts.Head;
      var stage := Take(id);
      if stage.Err? {
        return Err(stage.error);
      }
      var paused: PausedVm;
      match stage.value {
        case Paused(p) => paused := p;
        case Running(vm) => paused := runtime.PauseVm(vm);
        case other =>
          var e := PutBack(id, "snapshot", "running|paused", other);
          assert registry == old(registry);
          return Err(e);
      }
      var receipt := runtime.SnapshotVm(paused);
      snapshots := snapshots[name := receipt];
      registry := registry[id := Snapshotted];
      assert registry == old(registry)[id := Snapshotted];
      r := Ok(());
    }

    method StopCommand(id: string) returns (r: Result<(), ControlError>)
      requires Valid()
      modifies this, runtime.chain
      ensures (Value(), r) == OnStop(u, old(Value()), id)
    {
      hide Stop;
      hide Stage.Name;
      var stage := Take(id);
      if stage.Err? {
        return Err(stage.error);
      }
      if !stage.value.Running? {
        var e := PutBack(id, "stop", "running", stage.value);
        assert registry == old(registry);
        return Err(e);
      }
      var core := runtime.StopVm(stage.value.running);
      registry := registry[id := Stopped(core)];
      assert registry == old(registry)[id := Stopped(core)];
      r := Ok(());
    }

    /** Looks before it takes, so that a refusal leaves the machine in place. */
    method DestroyCommand(id: string, wipe: bool) returns (r: Result<(), ControlError>)
      requires Valid()
      modifies this, runtime.chain
      ensures (Value(), r) == OnDestroy(u, old(Value()), id, wipe)
    {
      hide DestroyVm;
      hide Stage.Name;
      if id !in registry {
        return Err(NotFound(id));
      }
      if !registry[id].Stopped? {
        return Err(InvalidState("destroy", id, registry[id].Name(), "stopped"));
      }
      if !wipe {
        return Err(WipeRequired(id));
      }
      var stage := Take(id);
      var _ := runtime.DestroyVmResources(stage.value.core);
      registry := registry[id := Destroyed];
      assert registry == old(registry)[id := Destroyed];
      r := Ok(());
    }
  }
}
