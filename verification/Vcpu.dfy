// The VM-exit dispatcher and the run loop of crates/hyper-vcpu/src/lib.rs.
module Vcpu {
  import opened Bytes
  import opened Words
  import opened Wrappers

  datatype VcpuState = Ready | Running | Blocked | Halted | Killed | Quarantined {
    predicate IsRunnable() { Ready? || Running? }

    predicate IsTerminal() { Halted? || Killed? || Quarantined? }
  }

  datatype Reason =
    | Cpuid(leaf: nat)
    | MsrRead(msr: nat)
    | MsrWrite(msr: nat, val: U64)
    | Io(port: nat, write: bool)
    | Hlt
    | NestedPageFault(gpa: U64)
    | ExternalIrq(vector: nat)
    | Shutdown
    | Unknown(code: U64)

  datatype Action =
    | Resume
    | InjectException(vector: nat)
    | EmulateAndResume
    | BlockVcpu
    | KillVm
    | QuarantineVm
    | HaltHost

  datatype Policy = Policy(cpuid: bool, msr: bool, io: bool, hlt: bool)

  datatype Dispatcher = Dispatcher(msrAllow: set<nat>, ioAllow: set<nat>, limit: U64)

  /** The fields of a vCPU that exits and dispatch decisions touch or read. */
  datatype Core = Core(state: VcpuState, exits: U64, last: Option<Reason>, policy: Policy)

  const GP_FAULT_VECTOR: nat := 13

  // ---- Dispatch of one exit ---------------------------------------------------

  function Decide(d: Dispatcher, p: Policy, reason: Reason): Action {
    match reason
    case Cpuid(_) => if p.cpuid then EmulateAndResume else Resume
    case MsrRead(msr) => DecideMsr(d, p, msr)
    case MsrWrite(msr, _) => DecideMsr(d, p, msr)
    case Io(port, _) =>
      if !p.io then Resume else if port in d.ioAllow then EmulateAndResume else QuarantineVm
    case Hlt => if p.hlt then BlockVcpu else Resume
    case NestedPageFault(gpa) => if gpa == 0 then KillVm else EmulateAndResume
    case ExternalIrq(_) => Resume
    case Shutdown => KillVm
    case Unknown(_) => KillVm
  }

  function DecideMsr(d: Dispatcher, p: Policy, msr: nat): Action {
    if !p.msr then Resume else if msr in d.msrAllow then EmulateAndResume else InjectException(GP_FAULT_VECTOR)
  }

  function Applied(s: VcpuState, action: Action): VcpuState {
    match action
    case Resume => if s.IsTerminal() then s else Running
    case EmulateAndResume => if s.IsTerminal() then s else Running
    case InjectException(_) => if s.IsTerminal() then s else Running
    case BlockVcpu => Blocked
    case KillVm => Killed
    case QuarantineVm => Quarantined
    case HaltHost => Halted
  }

  function Handle(d: Dispatcher, v: Core, reason: Reason): (Core, Action) {
    var exits := SaturatingAdd(v.exits, 1);
    var action := if exits > d.limit then KillVm else Decide(d, v.policy, reason);
    (v.(state := Applied(v.state, action), exits := exits, last := Some(reason)), action)
  }

  /** Counting this exit, the guest is still within the storm limit; the counter stops at its maximum. */
  predicate Within(d: Dispatcher, v: Core) { v.exits < d.limit || d.limit == U64_MAX }

  predicate Msr(reason: Reason, msr: nat) {
    (reason.MsrRead? && reason.msr == msr) || (reason.MsrWrite? && reason.msr == msr)
  }

  /**
   * Which exit leads to which action: a guest over its storm limit is killed; a shutdown, an unknown exit and
   * a fault at address 0 kill; a port that is not allow-listed quarantines; an MSR that is not injects a
   * protection fault; nothing halts the host.
   */
  lemma ActionOf(d: Dispatcher, v: Core, reason: Reason, msr: nat)
    requires reason.MsrRead? || reason.MsrWrite? ==> Msr(reason, msr)
    ensures
      var action := Handle(d, v, reason).1;
      && (action == KillVm <==>
            !Within(d, v) || reason.Shutdown? || reason.Unknown? || reason == NestedPageFault(0))
      && (action == QuarantineVm <==> Within(d, v) && reason.Io? && v.policy.io && reason.port !in d.ioAllow)
      && (action == InjectException(13) <==> Within(d, v) && Msr(reason, msr) && v.policy.msr && msr !in d.msrAllow)
      && (action.InjectException? ==> action == InjectException(13))
      && (action == BlockVcpu <==> Within(d, v) && reason.Hlt? && v.policy.hlt)
      && (action == Resume <==>
            Within(d, v) && match reason
              case Cpuid(_) => !v.policy.cpuid
              case MsrRead(_) => !v.policy.msr
              case MsrWrite(_, _) => !v.policy.msr
              case Io(_, _) => !v.policy.io
              case Hlt => !v.policy.hlt
              case ExternalIrq(_) => true
              case _ => false)
      && action != HaltHost
  {
  }

  /** What an exit leaves of the vCPU: one exit more, its reason, and the state its action asks for. */
  lemma StateAfter(d: Dispatcher, v: Core, reason: Reason)
    ensures
      var (v', action) := Handle(d, v, reason);
      && v'.exits == (if v.exits < U64_MAX then v.exits + 1 else U64_MAX)
      && v'.last == Some(reason) && v'.policy == v.policy
      && v'.state == (
           if action == KillVm then Killed
           else if action == QuarantineVm then Quarantined
           else if action == BlockVcpu then Blocked
           else if v.state in {Halted, Killed, Quarantined} then v.state
           else Running)
  {
  }

  /** The exits after which a guest may go on. */
  predicate Tolerated(d: Dispatcher, p: Policy, reason: Reason) {
    match reason
    case Io(port, _) => p.io ==> port in d.ioAllow
    case Hlt => !p.hlt
    case NestedPageFault(gpa) => gpa != 0
    case Shutdown => false
    case Unknown(_) => false
    case _ => true
  }

  /** Deny by default: a runnable guest stays runnable exactly after a tolerated exit within the storm limit. */
  lemma StaysRunnable(d: Dispatcher, v: Core, reason: Reason)
    requires v.state.IsRunnable()
    ensures Handle(d, v, reason).0.state.IsRunnable()
       <==> SaturatingAdd(v.exits, 1) <= d.limit && Tolerated(d, v.policy, reason)
  {
  }

  /** Port and MSR accesses are emulated only when intercepted and allow-listed. */
  lemma EmulationIsAllowListed(d: Dispatcher, v: Core, reason: Reason)
    requires Handle(d, v, reason).1 == EmulateAndResume
    ensures reason.Io? ==> v.policy.io && reason.port in d.ioAllow
    ensures reason.MsrRead? || reason.MsrWrite? ==> v.policy.msr && reason.msr in d.msrAllow
  {
  }

  /** A terminal state survives an exit unless the exit is an intercepted `HLT` within the storm limit. */
  lemma TerminalSurvives(d: Dispatcher, v: Core, reason: Reason)
    requires v.state.IsTerminal()
    ensures Handle(d, v, reason).0.state.IsTerminal()
       <==> SaturatingAdd(v.exits, 1) > d.limit || !v.policy.hlt || reason != Hlt
  {
  }

  /** Two raw dispatches bring a killed vCPU back to `Running`. */
  lemma KilledCanRunAgain()
    ensures
      var d := Dispatcher({}, {}, 1024);
      var killed := Core(Killed, 1, Some(Shutdown), Policy(true, true, true, true));
      Handle(d, Handle(d, killed, Hlt).0, Cpuid(1)).0.state == Running
  {
  }

  // ---- The run loop -----------------------------------------------------------

  /** A backend that sees the whole vCPU and may change its state, but nothing else of it. */
  type Backend<!B(!new)> = (B, Core) -> (B, VcpuState, Reason)

  datatype VcpuError = NotRunnable(state: VcpuState) | StepBudgetExceeded(max: nat)

  datatype Outcome<B> = Outcome(backend: B, vcpu: Core, result: Result<nat, VcpuError>)

  function OneExit<B(!new)>(run: Backend<B>, d: Dispatcher, b: B, v: Core): (B, Core) {
    var (b', state, reason) := run(b, v);
    (b', Handle(d, v.(state := state), reason).0)
  }

  function Loop<B(!new)>(run: Backend<B>, d: Dispatcher, b: B, v: Core, steps: nat, max: nat): Outcome<B>
    requires steps <= max
    decreases max - steps
  {
    if !v.state.IsRunnable() then Outcome(b, v, Ok(steps))
    else if steps >= max then Outcome(b, v, Err(StepBudgetExceeded(max)))
    else
      var (b', v') := OneExit(run, d, b, v);
      Loop(run, d, b', v', steps + 1, max)
  }

  function RunLoop<B(!new)>(run: Backend<B>, d: Dispatcher, b: B, v: Core, max: nat): Outcome<B> {
    if !v.state.IsRunnable() then Outcome(b, v, Err(NotRunnable(v.state)))
    else Loop(run, d, b, v, 0, max)
  }

  /** How many more exits the storm limit lets through, counting the one it kills at. */
  function Allowance(d: Dispatcher, exits: U64): nat {
    if exits > d.limit then 1 else d.limit - exits + 1
  }

  lemma {:induction false} LoopBound<B(!new)>(run: Backend<B>, d: Dispatcher, b: B, v: Core, steps: nat, max: nat)
    requires steps <= max && d.limit < U64_MAX
    requires v.state.IsRunnable() ==> max - steps >= Allowance(d, v.exits)
    ensures
      var o := Loop(run, d, b, v, steps, max);
      && o.result.Ok? && !o.vcpu.state.IsRunnable()
      && steps <= o.result.value <= steps + (if v.state.IsRunnable() then Allowance(d, v.exits) else 0)
      && (v.state.IsRunnable() ==> steps < o.result.value)
      && (v.exits <= d.limit ==> o.vcpu.exits == v.exits + (o.result.value - steps))
    decreases max - steps
  {
    if v.state.IsRunnable() {
      var (b', v') := OneExit(run, d, b, v);
      if v'.state.IsRunnable() {
        assert v'.exits <= d.limit;
      }
      LoopBound(run, d, b', v', steps + 1, max);
    }
  }

  /** Whatever the backend reports, the storm limit ends the loop within its allowance. */
  lemma RunLoopTerminates<B(!new)>(run: Backend<B>, d: Dispatcher, b: B, v: Core, max: nat)
    requires v.state.IsRunnable() && v.exits <= d.limit < U64_MAX
    requires max >= d.limit - v.exits + 1
    ensures
      var o := RunLoop(run, d, b, v, max);
      && o.result.Ok? && !o.vcpu.state.IsRunnable()
      && 0 < o.result.value <= d.limit - v.exits + 1
      && o.vcpu.exits == v.exits + o.result.value
  {
    LoopBound(run, d, b, v, 0, max);
  }

  /** A backend that only ever reports external interrupts. */
  function Interrupts(b: (), v: Core): ((), VcpuState, Reason) {
    ((), Running, ExternalIrq(32))
  }

  lemma {:induction false} InterruptsNeverStop(d: Dispatcher, v: Core, steps: nat, max: nat)
    requires d.limit == U64_MAX && v.state.IsRunnable() && steps <= max
    ensures Loop(Interrupts, d, (), v, steps, max).result == Err(StepBudgetExceeded(max))
    decreases max - steps
  {
    if steps < max {
      InterruptsNeverStop(d, OneExit(Interrupts, d, (), v).1, steps + 1, max);
    }
  }

  /** The bound is there exactly when the limit is below `u64::MAX`: at the maximum the counter saturates first. */
  lemma StormLimitNeedsRoom(d: Dispatcher, v: Core)
    requires v.state.IsRunnable() && v.exits <= d.limit
    ensures (forall max: nat | max >= d.limit - v.exits + 1 :: RunLoop(Interrupts, d, (), v, max).result.Ok?)
       <==> d.limit < U64_MAX
  {
    if d.limit < U64_MAX {
      forall max: nat | max >= d.limit - v.exits + 1
        ensures RunLoop(Interrupts, d, (), v, max).result.Ok?
      {
        RunLoopTerminates(Interrupts, d, (), v, max);
      }
    } else {
      var max := d.limit - v.exits + 1;
      InterruptsNeverStop(d, v, 0, max);
      assert !RunLoop(Interrupts, d, (), v, max).result.Ok?;
    }
  }

  /** Successive calls of the run loop, each with its step budget. */
  function RunLoops<B(!new)>(run: Backend<B>, d: Dispatcher, b: B, v: Core, budgets: seq<nat>): (B, Core)
    decreases |budgets|
  {
    if budgets == [] then (b, v)
    else
      var o := RunLoop(run, d, b, v, budgets[0]);
      RunLoops(run, d, o.backend, o.vcpu, budgets[1..])
  }

  /** The run loop refuses a vCPU that is not runnable, and any number of calls leave it and the backend alone. */
  lemma {:induction false} NotRunnableIsSticky<B(!new)>(
      run: Backend<B>, d: Dispatcher, b: B, v: Core, budgets: seq<nat>)
    requires !v.state.IsRunnable()
    ensures RunLoops(run, d, b, v, budgets) == (b, v)
    ensures forall max: nat :: RunLoop(run, d, b, v, max) == Outcome(b, v, Err(NotRunnable(v.state)))
    decreases |budgets|
  {
    if budgets != [] {
      NotRunnableIsSticky(run, d, b, v, budgets[1..]);
    }
  }

  /** A terminal state that a run loop ends in survives all later ones. */
  lemma TerminalIsSticky<B(!new)>(run: Backend<B>, d: Dispatcher, b: B, v: Core, max: nat, budgets: seq<nat>)
    requires RunLoop(run, d, b, v, max).vcpu.state.IsTerminal()
    ensures
      var o := RunLoop(run, d, b, v, max);
      RunLoops(run, d, b, v, [max] + budgets) == (o.backend, o.vcpu)
  {
    var o := RunLoop(run, d, b, v, max);
    NotRunnableIsSticky(run, d, o.backend, o.vcpu, budgets);
    assert ([max] + budgets)[1..] == budgets;
  }

  /** When the step budget runs out, exactly that many exits were taken and the guest was still runnable. */
  lemma {:induction false} BudgetExceeded<B(!new)>(run: Backend<B>, d: Dispatcher, b: B, v: Core, steps: nat, max: nat)
    requires steps <= max
    ensures
      var o := Loop(run, d, b, v, steps, max);
      o.result.Err? ==>
        && o.result.error == StepBudgetExceeded(max) && o.vcpu.state.IsRunnable()
        && o.vcpu.exits == SaturatingAdd(v.exits, max - steps)
    decreases max - steps
  {
    if v.state.IsRunnable() && steps < max {
      var (b', v') := OneExit(run, d, b, v);
      BudgetExceeded(run, d, b', v', steps + 1, max);
    }
  }

  // ---- The scripted backend ---------------------------------------------------

  datatype Fake = Fake(scripted: seq<Reason>, cursor: nat) {
    function Remaining(): nat {
      if cursor < |scripted| then |scripted| - cursor else 0
    }
  }

  function FakeRun(b: Fake, v: Core): (Fake, VcpuState, Reason) {
    if b.cursor < |b.scripted| then (b.(cursor := b.cursor + 1), Running, b.scripted[b.cursor])
    else (b, Running, Shutdown)
  }

  /** A script ends the loop one exit after its last entry at the latest, whatever the storm limit. */
  lemma {:induction false} ScriptBound(d: Dispatcher, b: Fake, v: Core, steps: nat, max: nat)
    requires steps <= max && (v.state.IsRunnable() ==> max - steps >= b.Remaining() + 1)
    ensures
      var o := Loop(FakeRun, d, b, v, steps, max);
      && o.result.Ok? && !o.vcpu.state.IsRunnable()
      && steps <= o.result.value <= steps + (if v.state.IsRunnable() then b.Remaining() + 1 else 0)
    decreases max - steps
  {
    if v.state.IsRunnable() {
      var (b', v') := OneExit(FakeRun, d, b, v);
      ScriptBound(d, b', v', steps + 1, max);
    }
  }

  /** A script of exits that a guest may go on after is replayed to its end, and the shutdown after it kills. */
  lemma {:induction false} ScriptReplays(d: Dispatcher, b: Fake, v: Core, steps: nat, max: nat)
    requires v.state.IsRunnable() && b.cursor <= |b.scripted|
    requires forall i | b.cursor <= i < |b.scripted| :: Tolerated(d, v.policy, b.scripted[i])
    requires v.exits + b.Remaining() + 1 <= d.limit && steps + b.Remaining() + 1 <= max
    ensures
      var o := Loop(FakeRun, d, b, v, steps, max);
      && o.result == Ok(steps + b.Remaining() + 1)
      && o.backend == Fake(b.scripted, |b.scripted|)
      && o.vcpu == Core(Killed, v.exits + b.Remaining() + 1, Some(Shutdown), v.policy)
    decreases max - steps
  {
    if b.cursor < |b.scripted| {
      var (b', v') := OneExit(FakeRun, d, b, v);
      StaysRunnable(d, v.(state := Running), b.scripted[b.cursor]);
      ScriptReplays(d, b', v', steps + 1, max);
    } else {
      assert Loop(FakeRun, d, b, v, steps, max)
          == Loop(FakeRun, d, b, OneExit(FakeRun, d, b, v).1, steps + 1, max);
    }
  }

  // ---- The vCPU as an object --------------------------------------------------

  class Vcpu {
    const id: nat
    const vmId: string
    var state: VcpuState
    var exits: U64
    var last: Option<Reason>
    var policy: Policy

    function Value(): Core
      reads this
    {
      Core(state, exits, last, policy)
    }

    constructor (id: nat, vmId: string)
      ensures this.id == id && this.vmId == vmId
      ensures Value() == Core(Ready, 0, None, Policy(true, true, true, true))
    {
      this.id := id;
      this.vmId := vmId;
      state := Ready;
      exits := 0;
      last := None;
      policy := Policy(true, true, true, true);
    }

    method RecordExit(reason: Reason)
      modifies this
      ensures Value() == old(Value()).(exits := SaturatingAdd(old(exits), 1), last := Some(reason))
    {
      exits := SaturatingAdd(exits, 1);
      last := Some(reason);
    }

    method Apply(action: Action)
      modifies this
      ensures Value() == old(Value()).(state := Applied(old(state), action))
    {
      match action
      case Resume | EmulateAndResume | InjectException(_) =>
        if !state.IsTerminal() {
          state := Running;
        }
      case BlockVcpu => state := Blocked;
      case KillVm => state := Killed;
      case QuarantineVm => state := Quarantined;
      case HaltHost => state := Halted;
    }
  }

  method HandleExit(d: Dispatcher, reason: Reason, vcpu: Vcpu) returns (action: Action)
    modifies vcpu
    ensures (vcpu.Value(), action) == Handle(d, old(vcpu.Value()), reason)
  {
    vcpu.RecordExit(reason);
    if vcpu.exits > d.limit {
      action := KillVm;
    } else {
      action := Decide(d, vcpu.policy, reason);
    }
    vcpu.Apply(action);
  }

  method RunVcpu<B(!new)>(run: Backend<B>, b: B, d: Dispatcher, vcpu: Vcpu, max: nat)
    returns (b': B, result: Result<nat, VcpuError>)
    modifies vcpu
    ensures Outcome(b', vcpu.Value(), result) == RunLoop(run, d, b, old(vcpu.Value()), max)
  {
    b' := b;
    if !vcpu.state.IsRunnable() {
      return b', Err(NotRunnable(vcpu.state));
    }
    var steps := 0;
    while vcpu.state.IsRunnable()
      invariant steps <= max
      invariant Loop(run, d, b', vcpu.Value(), steps, max) == RunLoop(run, d, b, old(vcpu.Value()), max)
      decreases max - steps, vcpu.state.IsRunnable()
    {
      if steps >= max {
        return b', Err(StepBudgetExceeded(max));
      }
      var (next, state, reason) := run(b', vcpu.Value());
      b' := next;
      vcpu.state := state;
      var action := HandleExit(d, reason, vcpu);
      steps := steps + 1;
      if action == HaltHost {
        break;
      }
    }
    result := Ok(steps);
  }

  const U32_MAX: nat := 0xFFFF_FFFF

  type U32 = n: int | 0 <= n <= U32_MAX

  /** The counter after one id; the 32-bit addition wraps. */
  function NextId(next: U32): U32 {
    if next == U32_MAX then 0 else next + 1
  }

  /** The id of allocation `n`, counting from 0. */
  function IdOf(n: nat): U32 {
    if n == 0 then 0 else NextId(IdOf(n - 1))
  }

  lemma {:induction false} IdIsModulo(n: nat)
    ensures IdOf(n) == n % (U32_MAX + 1)
  {
    if n > 0 {
      IdIsModulo(n - 1);
      ModuloNext(n - 1);
    }
  }

  lemma ModuloNext(n: nat)
    ensures (n + 1) % (U32_MAX + 1) == if n % (U32_MAX + 1) == U32_MAX then 0 else n % (U32_MAX + 1) + 1
  {
  }

  /** Two allocations get one id exactly when their numbers agree modulo 2^32. */
  lemma IdsRepeatExactly(m: nat, n: nat)
    ensures IdOf(m) == IdOf(n) <==> m % (U32_MAX + 1) == n % (U32_MAX + 1)
  {
    IdIsModulo(m);
    IdIsModulo(n);
  }

  class VcpuIdAllocator {
    var next: U32
    /** How many ids have been handed out. */
    ghost var count: nat

    ghost predicate Valid()
      reads this
    {
      next == IdOf(count)
    }

    constructor ()
      ensures Valid() && count == 0
    {
      next := 0;
      count := 0;
    }

    method Alloc() returns (id: U32)
      requires Valid()
      modifies this
      ensures Valid() && id == IdOf(old(count)) && count == old(count) + 1
    {
      id := next;
      next := if next == U32_MAX then 0 else next + 1;
      count := count + 1;
    }
  }
}
