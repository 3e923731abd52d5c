// crates/hyper-net/src/switch.rs and sandbox.rs: a rate-limited virtual switch shared by
// sandboxes that keep count of their flows.
module Net {
  import opened Bytes

  datatype Mode = NoNetwork | Isolated | HostOnly | Nat | Bridge | AttestedOverlay {
    predicate DeniesAll() { NoNetwork? || Isolated? }
  }

  datatype Flow = Flow(proto: string, dst: string, port: nat, egress: bool)

  /** A sandbox's mode and what its rules match; ingress knows no default posture. */
  datatype Policy = Policy(
    mode: Mode, matchesEgress: Flow -> bool, matchesIngress: Flow -> bool, defaultAllows: bool)
  {
    predicate Permits(f: Flow) {
      !mode.DeniesAll() && if f.egress then matchesEgress(f) || defaultAllows else matchesIngress(f)
    }
  }

  /** Which modes and rules let a flow through: only egress has a default posture. */
  lemma PermittedExactly(p: Policy, f: Flow)
    ensures p.mode in {NoNetwork, Isolated} ==> !p.Permits(f)
    ensures p.mode in {HostOnly, Nat, Bridge, AttestedOverlay} ==>
      (p.Permits(f) <==> (f.egress && (p.matchesEgress(f) || p.defaultAllows)) || (!f.egress && p.matchesIngress(f)))
  {
  }

  const U32_MAX: nat := 0xFFFF_FFFF

  type U32 = n: int | 0 <= n <= U32_MAX

  /** 64-bit counters. */
  datatype Counters = Counters(allowed: U64, denied: U64, bytes: U64)

  const FLOW_OVERHEAD_BYTES: U64 := 64

  /** `n + d` in a counter that wraps at `max + 1`. */
  function Bump(n: nat, d: nat, max: nat): (r: nat)
    requires n <= max && d <= max
    ensures r <= max
  {
    if n + d > max then n + d - (max + 1) else n + d
  }

  // ---- Runs -------------------------------------------------------------------

  datatype Event = Tick | Evaluate(box: string, flow: Flow)

  /** The switch's window and the counters of every sandbox on it. */
  datatype World = World(window: U32, counters: string -> Counters)

  predicate RateLimited(limit: U32, window: U32) { limit != 0 && window >= limit }

  predicate Allows(limit: U32, policies: string -> Policy, w: World, e: Event) {
    e.Evaluate? && policies(e.box).Permits(e.flow) && !RateLimited(limit, w.window)
  }

  function RecordAllow(c: Counters): Counters {
    Counters(Bump(c.allowed, 1, U64_MAX), c.denied, Bump(c.bytes, FLOW_OVERHEAD_BYTES, U64_MAX))
  }

  function RecordDeny(c: Counters): Counters { c.(denied := Bump(c.denied, 1, U64_MAX)) }

  function Step(limit: U32, policies: string -> Policy, w: World, e: Event): World {
    match e
    case Tick => w.(window := 0)
    case Evaluate(box, _) =>
      var allow := Allows(limit, policies, w, e);
      World(
        if allow then Bump(w.window, 1, U32_MAX) else w.window,
        other => if other != box then w.counters(other)
                 else if allow then RecordAllow(w.counters(box)) else RecordDeny(w.counters(box)))
  }

  function At(limit: U32, policies: string -> Policy, events: seq<Event>, k: nat): World
    requires k <= |events|
  {
    if k == 0 then World(0, _ => Counters(0, 0, 0))
    else Step(limit, policies, At(limit, policies, events, k - 1), events[k - 1])
  }

  predicate AllowedAt(limit: U32, policies: string -> Policy, events: seq<Event>, k: nat)
    requires k < |events|
  {
    Allows(limit, policies, At(limit, policies, events, k), events[k])
  }

  function Count(b: bool): nat { if b then 1 else 0 }

  /** Flows allowed, on all sandboxes together, since the last tick before `k`. */
  function AllowedInWindow(limit: U32, policies: string -> Policy, events: seq<Event>, k: nat): nat
    requires k <= |events|
  {
    if k == 0 || events[k - 1].Tick? then 0
    else AllowedInWindow(limit, policies, events, k - 1) + Count(AllowedAt(limit, policies, events, k - 1))
  }

  /** Flows of one sandbox among the first `k` events, and those of them that were allowed. */
  function Evaluated(events: seq<Event>, box: string, k: nat): nat
    requires k <= |events|
  {
    if k == 0 then 0
    else Evaluated(events, box, k - 1) + Count(events[k - 1].Evaluate? && events[k - 1].box == box)
  }

  function AllowedFor(limit: U32, policies: string -> Policy, events: seq<Event>, box: string, k: nat): nat
    requires k <= |events|
  {
    if k == 0 then 0
    else
      AllowedFor(limit, policies, events, box, k - 1)
        + Count(events[k - 1].Evaluate? && events[k - 1].box == box && AllowedAt(limit, policies, events, k - 1))
  }

  lemma BumpIsModulo(n: nat, total: nat, d: nat, max: nat)
    requires n <= max && d <= max && n == total % (max + 1)
    ensures Bump(n, d, max) == (total + d) % (max + 1)
  {
    var q, r := Divide(total, max + 1);
    if n + d > max {
      NextQuotient(max + 1, q);
      DivisionUnique(total + d, max + 1, q + 1, n + d - (max + 1));
    } else {
      DivisionUnique(total + d, max + 1, q, n + d);
    }
  }

  lemma NextQuotient(d: nat, q: nat)
    ensures d * (q + 1) == d * q + d
  {
  }

  lemma SmallRemainder(n: nat, d: nat)
    requires n < d
    ensures n % d == n
  {
    DivisionUnique(n, d, 0, n);
  }

  /** The window counts modulo 2^32; under a limit it counts exactly and never passes the limit. */
  lemma {:induction false} WindowCounts(limit: U32, policies: string -> Policy, events: seq<Event>, k: nat)
    requires k <= |events|
    ensures At(limit, policies, events, k).window == AllowedInWindow(limit, policies, events, k) % (U32_MAX + 1)
    ensures limit != 0 ==> At(limit, policies, events, k).window == AllowedInWindow(limit, policies, events, k) <= limit
    decreases k
  {
    hide Bump;
    hide Policy.Permits;
    if k > 0 {
      WindowCounts(limit, policies, events, k - 1);
      var w := At(limit, policies, events, k - 1).window;
      BumpIsModulo(w, AllowedInWindow(limit, policies, events, k - 1), 1, U32_MAX);
      if limit != 0 && w < limit {
        SmallRemainder(w + 1, U32_MAX + 1);
      }
    } else {
      SmallRemainder(0, U32_MAX + 1);
    }
  }

  /**
   * A flow is allowed exactly when its sandbox permits it and the window still has room; no denied
   * flow takes a place.
   */
  lemma AdmittedExactly(limit: U32, policies: string -> Policy, events: seq<Event>, k: nat)
    requires k < |events| && events[k].Evaluate?
    ensures AllowedAt(limit, policies, events, k) <==>
      && policies(events[k].box).Permits(events[k].flow)
      && (limit == 0 || AllowedInWindow(limit, policies, events, k) < limit)
    ensures limit != 0 ==> AllowedInWindow(limit, policies, events, k + 1) <= limit
  {
    WindowCounts(limit, policies, events, k);
    WindowCounts(limit, policies, events, k + 1);
  }

  /**
   * The increment of the window leaves 32 bits exactly at an allowed flow after 2^32 - 1 more in its
   * window, without a limit.
   */
  lemma WindowOverflowsExactly(limit: U32, policies: string -> Policy, events: seq<Event>, k: nat)
    requires k < |events| && AllowedAt(limit, policies, events, k)
    ensures At(limit, policies, events, k).window == U32_MAX
       <==> limit == 0 && AllowedInWindow(limit, policies, events, k) % (U32_MAX + 1) == U32_MAX
  {
    WindowCounts(limit, policies, events, k);
  }

  function Counted(allowed: nat, denied: nat): Counters {
    Counters(allowed % (U64_MAX + 1), denied % (U64_MAX + 1), 64 * allowed % (U64_MAX + 1))
  }

  lemma CountedNext(allowed: nat, denied: nat)
    ensures RecordAllow(Counted(allowed, denied)) == Counted(allowed + 1, denied)
    ensures RecordDeny(Counted(allowed, denied)) == Counted(allowed, denied + 1)
  {
    hide Bump;
    BumpIsModulo(allowed % (U64_MAX + 1), allowed, 1, U64_MAX);
    BumpIsModulo(denied % (U64_MAX + 1), denied, 1, U64_MAX);
    var bytes := FLOW_OVERHEAD_BYTES * allowed;
    BumpIsModulo(bytes % (U64_MAX + 1), bytes, FLOW_OVERHEAD_BYTES, U64_MAX);
  }

  /** Every flow is counted once, as allowed or denied, on its own sandbox, and bytes follow the allows, modulo 2^64. */
  lemma {:induction false} CountersConserve(
      limit: U32, policies: string -> Policy, events: seq<Event>, box: string, k: nat)
    requires k <= |events|
    ensures
      var allowed := AllowedFor(limit, policies, events, box, k);
      && allowed <= Evaluated(events, box, k)
      && At(limit, policies, events, k).counters(box) == Counted(allowed, Evaluated(events, box, k) - allowed)
    decreases k
  {
    hide Counted;
    hide Bump;
    if k > 0 {
      CountersConserve(limit, policies, events, box, k - 1);
      var allowed := AllowedFor(limit, policies, events, box, k - 1);
      CountedNext(allowed, Evaluated(events, box, k - 1) - allowed);
    } else {
      CountedNone();
    }
  }

  lemma CountedNone()
    ensures Counted(0, 0) == Counters(0, 0, 0)
  {
    SmallRemainder(0, U64_MAX + 1);
  }

  // ---- The objects --------------------------------------------------------------

  class NetworkSandbox {
    const policy: Policy
    var counters: Counters

    constructor (policy: Policy)
      ensures this.policy == policy && counters == Counters(0, 0, 0)
    {
      this.policy := policy;
      counters := Counters(0, 0, 0);
    }

    method NoteAllow()
      modifies this
      ensures counters == RecordAllow(old(counters))
    {
      counters := counters.(allowed := Bump(counters.allowed, 1, U64_MAX));
      counters := counters.(bytes := Bump(counters.bytes, FLOW_OVERHEAD_BYTES, U64_MAX));
    }

    method NoteDeny()
      modifies this
      ensures counters == RecordDeny(old(counters))
    {
      counters := counters.(denied := Bump(counters.denied, 1, U64_MAX));
    }
  }

  class VSwitch {
    const limit: U32
    var window: U32

    constructor (limit: U32)
      ensures this.limit == limit && window == 0
    {
      this.limit := limit;
      window := 0;
    }

    method OpenWindow()
      modifies this
      ensures window == 0
    {
      window := 0;
    }

    /** One step of the run, on the counters of the sandbox it names. */
    method EvaluateFlow(box: NetworkSandbox, f: Flow) returns (allow: bool)
      modifies this, box
      ensures forall name: string, policies: string -> Policy, others: string -> Counters
        | policies(name) == box.policy && others(name) == old(box.counters) ::
          var w := World(old(window), others);
          var e := Evaluate(name, f);
          && allow == Allows(limit, policies, w, e)
          && window == Step(limit, policies, w, e).window
          && box.counters == Step(limit, policies, w, e).counters(name)
    {
      if box.policy.mode.DeniesAll() {
        box.NoteDeny();
        return false;
      }
      var matched := if f.egress then box.policy.matchesEgress(f) || box.policy.defaultAllows
        else box.policy.matchesIngress(f);
      if !matched {
        box.NoteDeny();
        return false;
      }
      if RateLimited(limit, window) {
        box.NoteDeny();
        return false;
      }
      window := Bump(window, 1, U32_MAX);
      box.NoteAllow();
      allow := true;
    }
  }
}
