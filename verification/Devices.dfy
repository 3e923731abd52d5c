// Route tables and the virtual device graph of crates/hyper-devices/src/lib.rs, and the
// registration loop of crates/hyper-vm/src/runtime.rs.
module Devices {
  import opened Bytes
  import opened DeviceTypes
  import opened Words
  import opened Wrappers

  /** The two address spaces: 64-bit MMIO addresses, whose window ends saturate, and 16-bit ports. */
  datatype Space = Mmio | Ports {
    function Missing(addr: nat): DevError {
      if Mmio? then UnmappedAddress(addr) else UnknownPort(addr)
    }

    function Empty(base: nat): DevError {
      if Mmio? then OffsetOutOfRange(base) else UnknownPort(base)
    }
  }

  datatype Route = Route(base: nat, len: nat, index: nat) {
    function End(space: Space): nat {
      if space.Mmio? && base + len > U64_MAX then U64_MAX else base + len
    }

    predicate Contains(space: Space, addr: nat) { base <= addr < End(space) }

    predicate Overlaps(space: Space, other: Route) { base < other.End(space) && other.base < End(space) }
  }

  /** Windows overlap exactly when they share an address. */
  lemma OverlapsShares(space: Space, a: Route, b: Route)
    requires a.len > 0 && b.len > 0
    ensures a.Overlaps(space, b) <==> exists x: nat :: a.Contains(space, x) && b.Contains(space, x)
  {
    if a.Overlaps(space, b) {
      var x := if a.base < b.base then b.base else a.base;
      assert a.Contains(space, x) && b.Contains(space, x);
    }
  }

  // ---- Route tables as values -------------------------------------------------

  function FirstOverlap(space: Space, routes: seq<Route>, r: Route): Option<Route> {
    if routes == [] then None
    else if routes[0].Overlaps(space, r) then Some(routes[0])
    else FirstOverlap(space, routes[1..], r)
  }

  function Insert(space: Space, routes: seq<Route>, r: Route): Result<seq<Route>, DevError> {
    if r.len == 0 then Err(space.Empty(r.base))
    else
      var existing := FirstOverlap(space, routes, r);
      if existing.Some? then Err(space.Missing(existing.value.base)) else Ok(routes + [r])
  }

  function Owner(space: Space, routes: seq<Route>, addr: nat): (r: Option<Route>)
    ensures r.Some? ==> r.value.Contains(space, addr)
  {
    if routes == [] then None
    else if routes[0].Contains(space, addr) then Some(routes[0])
    else Owner(space, routes[1..], addr)
  }

  function Without(routes: seq<Route>, index: nat): seq<Route> {
    if routes == [] then []
    else (if routes[0].index != index then [routes[0]] else []) + Without(routes[1..], index)
  }

  predicate Disjoint(space: Space, routes: seq<Route>) {
    forall i, j | 0 <= i < j < |routes| :: !routes[i].Overlaps(space, routes[j])
  }

  /** Non-empty windows of registered devices, pairwise disjoint. */
  predicate TableInv(space: Space, routes: seq<Route>, count: nat) {
    && Disjoint(space, routes)
    && forall i | 0 <= i < |routes| :: routes[i].len > 0 && routes[i].index < count
  }

  lemma {:induction false} FirstOverlapMeans(space: Space, routes: seq<Route>, r: Route)
    ensures FirstOverlap(space, routes, r) == None <==> forall i | 0 <= i < |routes| :: !routes[i].Overlaps(space, r)
    ensures FirstOverlap(space, routes, r).Some? ==> FirstOverlap(space, routes, r).value in routes
  {
    if routes != [] {
      FirstOverlapMeans(space, routes[1..], r);
    }
  }

  /** A window is accepted exactly when it is not empty and takes no address that is already routed. */
  lemma InsertAccepts(space: Space, routes: seq<Route>, r: Route, count: nat)
    requires TableInv(space, routes, count)
    ensures Insert(space, routes, r).Ok?
       <==> r.len > 0 && forall i, x | 0 <= i < |routes| && r.Contains(space, x) :: !routes[i].Contains(space, x)
    ensures Insert(space, routes, r).Ok? && r.index < count ==> TableInv(space, routes + [r], count)
  {
    FirstOverlapMeans(space, routes, r);
    if r.len > 0 {
      forall i | 0 <= i < |routes|
        ensures routes[i].Overlaps(space, r) <==>
          exists x: nat :: routes[i].Contains(space, x) && r.Contains(space, x)
      {
        OverlapsShares(space, routes[i], r);
      }
    }
  }

  lemma {:induction false} OwnerMeans(space: Space, routes: seq<Route>, addr: nat)
    ensures Owner(space, routes, addr) == None <==> forall i | 0 <= i < |routes| :: !routes[i].Contains(space, addr)
    ensures Owner(space, routes, addr).Some? ==>
      Owner(space, routes, addr).value in routes
  {
    if routes != [] {
      OwnerMeans(space, routes[1..], addr);
    }
  }

  /** With disjoint windows, the route that contains an address is its one owner. */
  lemma OwnerUnique(space: Space, routes: seq<Route>, addr: nat, i: nat)
    requires Disjoint(space, routes) && i < |routes| && routes[i].Contains(space, addr)
    ensures Owner(space, routes, addr) == Some(routes[i])
  {
    OwnerMeans(space, routes, addr);
    var j :| 0 <= j < |routes| && routes[j] == Owner(space, routes, addr).value;
    assert routes[j].Overlaps(space, routes[i]) && routes[i].Overlaps(space, routes[j]);
  }

  /** The last 64-bit address can never be routed: every window end saturates below it. */
  lemma LastAddressUnrouted(routes: seq<Route>)
    ensures Owner(Mmio, routes, U64_MAX) == None
  {
    OwnerMeans(Mmio, routes, U64_MAX);
  }

  lemma {:induction false} WithoutAbsent(routes: seq<Route>, index: nat)
    requires forall i | 0 <= i < |routes| :: routes[i].index != index
    ensures Without(routes, index) == routes
  {
    if routes != [] {
      WithoutAbsent(routes[1..], index);
    }
  }

  lemma {:induction false} WithoutSnoc(routes: seq<Route>, r: Route, index: nat)
    ensures Without(routes + [r], index) == Without(routes, index) + if r.index != index then [r] else []
  {
    if routes == [] {
      assert [] + [r] == [r];
    } else {
      WithoutSnoc(routes[1..], r, index);
      assert (routes + [r])[1..] == routes[1..] + [r];
    }
  }

  // ---- Interrupt lines --------------------------------------------------------

  datatype Irq = Irq(index: nat, line: nat)

  function Bind(irqs: seq<Irq>, index: nat, line: nat): seq<Irq> {
    if irqs == [] then [Irq(index, line)]
    else if irqs[0].index == index then [Irq(index, line)] + irqs[1..]
    else [irqs[0]] + Bind(irqs[1..], index, line)
  }

  function LineOf(irqs: seq<Irq>, index: nat): Option<nat> {
    if irqs == [] then None
    else if irqs[0].index == index then Some(irqs[0].line)
    else LineOf(irqs[1..], index)
  }

  /** At most one binding for each device, all of them registered. */
  predicate IrqInv(irqs: seq<Irq>, count: nat) {
    && (forall i | 0 <= i < |irqs| :: irqs[i].index < count)
    && forall i, j | 0 <= i < j < |irqs| :: irqs[i].index != irqs[j].index
  }

  /** A binding replaces the device's own and leaves every other device's line alone. */
  lemma {:induction false} BindThenLook(irqs: seq<Irq>, index: nat, line: nat, other: nat)
    ensures LineOf(Bind(irqs, index, line), other) == if other == index then Some(line) else LineOf(irqs, other)
  {
    if irqs != [] && irqs[0].index != index {
      BindThenLook(irqs[1..], index, line, other);
    }
  }

  lemma {:induction false} BindNew(irqs: seq<Irq>, index: nat, line: nat)
    requires forall i | 0 <= i < |irqs| :: irqs[i].index != index
    ensures Bind(irqs, index, line) == irqs + [Irq(index, line)]
  {
    if irqs != [] {
      BindNew(irqs[1..], index, line);
    }
  }

  // ---- The graph as a value ---------------------------------------------------

  datatype Graph<D> = Graph(devices: seq<D>, mmio: seq<Route>, ports: seq<Route>, irqs: seq<Irq>) {
    function Table(space: Space): seq<Route> { if space.Mmio? then mmio else ports }
  }

  datatype Window = Window(base: nat, len: nat)

  function Register<D>(g: Graph<D>, device: D, mmio: Option<Window>, ports: Option<Window>, irq: Option<nat>)
    : (Graph<D>, Result<nat, DevError>)
  {
    var index := |g.devices|;
    var m := if mmio.None? then Ok(g.mmio) else Insert(Mmio, g.mmio, Route(mmio.value.base, mmio.value.len, index));
    if m.Err? then (g, Err(m.error))
    else
      var p := if ports.None? then Ok(g.ports)
        else Insert(Ports, g.ports, Route(ports.value.base, ports.value.len, index));
      if p.Err? then (g.(mmio := Without(m.value, index)), Err(p.error))
      else
        var irqs := if irq.None? then g.irqs else Bind(g.irqs, index, irq.value);
        (Graph(g.devices + [device], m.value, p.value, irqs), Ok(index))
  }

  predicate Inv<D>(g: Graph<D>) {
    && TableInv(Mmio, g.mmio, |g.devices|)
    && TableInv(Ports, g.ports, |g.devices|)
    && IrqInv(g.irqs, |g.devices|)
  }

  lemma GrowTable(space: Space, routes: seq<Route>, count: nat)
    requires TableInv(space, routes, count)
    ensures TableInv(space, routes, count + 1)
  {
  }

  /** A refused window leaves the table it was offered to alone; the roll-back undoes the other one. */
  lemma RollBack(routes: seq<Route>, r: Route)
    requires forall i | 0 <= i < |routes| :: routes[i].index != r.index
    ensures Without(routes, r.index) == routes == Without(routes + [r], r.index)
  {
    WithoutAbsent(routes, r.index);
    WithoutSnoc(routes, r, r.index);
  }

  /** A failed registration restores every table exactly. */
  lemma FailedRegisterRestores<D>(g: Graph<D>, device: D, mmio: Option<Window>, ports: Option<Window>, irq: Option<nat>)
    requires Inv(g)
    ensures Register(g, device, mmio, ports, irq).1.Err? ==> Register(g, device, mmio, ports, irq).0 == g
  {
    var index := |g.devices|;
    if mmio.Some? {
      RollBack(g.mmio, Route(mmio.value.base, mmio.value.len, index));
    } else {
      WithoutAbsent(g.mmio, index);
    }
  }

  lemma RegisterKeepsInv<D>(g: Graph<D>, device: D, mmio: Option<Window>, ports: Option<Window>, irq: Option<nat>)
    requires Inv(g)
    ensures Inv(Register(g, device, mmio, ports, irq).0)
  {
    FailedRegisterRestores(g, device, mmio, ports, irq);
    var index := |g.devices|;
    if Register(g, device, mmio, ports, irq).1.Ok? {
      GrowTable(Mmio, g.mmio, index);
      GrowTable(Ports, g.ports, index);
      if mmio.Some? {
        InsertAccepts(Mmio, g.mmio, Route(mmio.value.base, mmio.value.len, index), index + 1);
      }
      if ports.Some? {
        InsertAccepts(Ports, g.ports, Route(ports.value.base, ports.value.len, index), index + 1);
      }
      if irq.Some? {
        BindNew(g.irqs, index, irq.value);
      }
    }
  }

  // ---- What a registration installs, in numbers ---------------------------------

  lemma {:induction false} OwnerSnoc(space: Space, routes: seq<Route>, r: Route, addr: nat)
    ensures Owner(space, routes + [r], addr)
         == if Owner(space, routes, addr).Some? then Owner(space, routes, addr)
            else if r.Contains(space, addr) then Some(r) else None
  {
    if routes == [] {
      assert [r][1..] == [];
    } else {
      OwnerSnoc(space, routes[1..], r, addr);
      assert (routes + [r])[1..] == routes[1..] + [r];
    }
  }

  /** The window asked for covers an address; the last MMIO address is never covered. */
  predicate Covers(space: Space, window: Option<Window>, addr: nat) {
    && window.Some? && window.value.base <= addr < window.value.base + window.value.len
    && (space.Mmio? ==> addr < U64_MAX)
  }

  /** The addresses of the window now belong to device `index` from `base` on, all others to whom they belonged. */
  ghost predicate Installed(space: Space, before: seq<Route>, after: seq<Route>, window: Option<Window>, index: nat) {
    forall addr: nat ::
      if Covers(space, window, addr) then
        Owner(space, before, addr).None? && Owner(space, after, addr).Some?
        && var r := Owner(space, after, addr).value; r.index == index && addr - r.base == addr - window.value.base
      else Owner(space, after, addr) == Owner(space, before, addr)
  }

  lemma InsertInstalls(space: Space, routes: seq<Route>, window: Window, index: nat)
    requires Insert(space, routes, Route(window.base, window.len, index)).Ok?
    ensures Installed(
      space, routes, Insert(space, routes, Route(window.base, window.len, index)).value, Some(window), index)
  {
    var r := Route(window.base, window.len, index);
    FirstOverlapMeans(space, routes, r);
    forall addr: nat
      ensures Covers(space, Some(window), addr) <==> r.Contains(space, addr)
      ensures r.Contains(space, addr) ==> Owner(space, routes, addr).None?
      ensures Owner(space, routes + [r], addr)
           == if Owner(space, routes, addr).Some? then Owner(space, routes, addr)
              else if r.Contains(space, addr) then Some(r) else None
    {
      OwnerSnoc(space, routes, r, addr);
      OwnerMeans(space, routes, addr);
    }
  }

  /**
   * A successful registration puts the device last, gives it the addresses of its two windows and its line,
   * and leaves every other address and line where it was.
   */
  lemma RegisterInstalls<D>(g: Graph<D>, device: D, mmio: Option<Window>, ports: Option<Window>, irq: Option<nat>)
    requires Register(g, device, mmio, ports, irq).1.Ok?
    ensures
      var (g', r) := Register(g, device, mmio, ports, irq);
      && r.value == |g.devices| && g'.devices == g.devices + [device]
      && Installed(Mmio, g.mmio, g'.mmio, mmio, r.value)
      && Installed(Ports, g.ports, g'.ports, ports, r.value)
      && forall k :: LineOf(g'.irqs, k) == if irq.Some? && k == r.value then irq else LineOf(g.irqs, k)
  {
    hide Installed;
    hide Insert;
    var index := |g.devices|;
    NothingInstalled(Mmio, g.mmio, index);
    NothingInstalled(Ports, g.ports, index);
    if mmio.Some? {
      InsertInstalls(Mmio, g.mmio, mmio.value, index);
    }
    if ports.Some? {
      InsertInstalls(Ports, g.ports, ports.value, index);
    }
    if irq.Some? {
      forall k
        ensures LineOf(Bind(g.irqs, index, irq.value), k) == if k == index then irq else LineOf(g.irqs, k)
      {
        BindThenLook(g.irqs, index, irq.value, k);
      }
    }
  }

  lemma NothingInstalled(space: Space, routes: seq<Route>, index: nat)
    ensures Installed(space, routes, routes, None, index)
  {
  }

  /** A window is free when it is not empty and nothing answers inside it. */
  ghost predicate Free(space: Space, routes: seq<Route>, window: Option<Window>) {
    window.Some? ==>
      window.value.len > 0 && forall addr: nat | Covers(space, window, addr) :: Owner(space, routes, addr).None?
  }

  lemma InsertsFree(space: Space, routes: seq<Route>, window: Window, index: nat, count: nat)
    requires TableInv(space, routes, count)
    ensures Insert(space, routes, Route(window.base, window.len, index)).Ok? <==> Free(space, routes, Some(window))
  {
    var r := Route(window.base, window.len, index);
    InsertAccepts(space, routes, r, count);
    forall addr: nat
      ensures Covers(space, Some(window), addr) <==> r.Contains(space, addr)
      ensures Owner(space, routes, addr).None? <==> forall i | 0 <= i < |routes| :: !routes[i].Contains(space, addr)
    {
      OwnerMeans(space, routes, addr);
    }
  }

  /** Registration succeeds exactly when both windows are free. */
  lemma RegistersExactly<D>(g: Graph<D>, device: D, mmio: Option<Window>, ports: Option<Window>, irq: Option<nat>)
    requires Inv(g)
    ensures Register(g, device, mmio, ports, irq).1.Ok? <==> Free(Mmio, g.mmio, mmio) && Free(Ports, g.ports, ports)
  {
    hide Free;
    hide Insert;
    hide TableInv;
    NoneFree(Mmio, g.mmio);
    NoneFree(Ports, g.ports);
    if mmio.Some? {
      InsertsFree(Mmio, g.mmio, mmio.value, |g.devices|, |g.devices|);
    }
    if ports.Some? {
      InsertsFree(Ports, g.ports, ports.value, |g.devices|, |g.devices|);
    }
  }

  lemma NoneFree(space: Space, routes: seq<Route>)
    ensures Free(space, routes, None)
  {
  }

  /** An empty window is refused at its base; any other at the base of the first window in its way. */
  lemma {:induction false} InsertRefuses(space: Space, routes: seq<Route>, r: Route)
    requires Insert(space, routes, r).Err?
    ensures r.len == 0 ==>
      Insert(space, routes, r).error == if space.Mmio? then OffsetOutOfRange(r.base) else UnknownPort(r.base)
    ensures r.len > 0 ==>
      exists i | 0 <= i < |routes| ::
        && routes[i].Overlaps(space, r) && (forall j | 0 <= j < i :: !routes[j].Overlaps(space, r))
        && Insert(space, routes, r).error
             == if space.Mmio? then UnmappedAddress(routes[i].base) else UnknownPort(routes[i].base)
  {
    if r.len > 0 && !routes[0].Overlaps(space, r) {
      InsertRefuses(space, routes[1..], r);
      var i :| 0 <= i < |routes| - 1
        && routes[1..][i].Overlaps(space, r) && (forall j | 0 <= j < i :: !routes[1..][j].Overlaps(space, r))
        && Insert(space, routes[1..], r).error
             == if space.Mmio? then UnmappedAddress(routes[1..][i].base) else UnknownPort(routes[1..][i].base);
      assert forall j | 1 <= j < i + 1 :: routes[j] == routes[1..][j - 1];
      assert routes[i + 1].Overlaps(space, r);
    }
  }

  /** A failed registration reports the MMIO window's refusal first, then the port window's. */
  lemma RegisterRefuses<D>(g: Graph<D>, device: D, mmio: Option<Window>, ports: Option<Window>, irq: Option<nat>)
    requires Inv(g) && Register(g, device, mmio, ports, irq).1.Err?
    ensures
      var m := if mmio.Some? then mmio.value else Window(0, 0);
      var p := if ports.Some? then ports.value else Window(0, 0);
      var error := Register(g, device, mmio, ports, irq).1.error;
      if !Free(Mmio, g.mmio, mmio) then Insert(Mmio, g.mmio, Route(m.base, m.len, |g.devices|)) == Err(error)
      else !Free(Ports, g.ports, ports) && Insert(Ports, g.ports, Route(p.base, p.len, |g.devices|)) == Err(error)
  {
    hide Free;
    hide Insert;
    hide TableInv;
    NoneFree(Mmio, g.mmio);
    NoneFree(Ports, g.ports);
    if mmio.Some? {
      InsertsFree(Mmio, g.mmio, mmio.value, |g.devices|, |g.devices|);
    }
    if ports.Some? {
      InsertsFree(Ports, g.ports, ports.value, |g.devices|, |g.devices|);
    }
  }

  // ---- Dispatch ---------------------------------------------------------------

  datatype Access = Read(width: Width) | Write(width: Width, value: U64)

  /** What a device does with an access at a device-local offset. */
  type Behaviour<!D> = (D, Space, nat, Access) -> (D, Result<nat, DevError>)

  function Dispatch<D>(act: Behaviour<D>, g: Graph<D>, space: Space, addr: nat, access: Access)
    : (Graph<D>, Result<nat, DevError>)
  {
    var owner := Owner(space, g.Table(space), addr);
    if owner.None? then (g, Err(space.Missing(addr)))
    else
      var i := owner.value.index;
      if i >= |g.devices| then (g, Err(UnknownDevice(i)))
      else
        var (d, r) := act(g.devices[i], space, addr - owner.value.base, access);
        (g.(devices := g.devices[i := d]), r)
  }

  /**
   * An access reaches the one device whose window contains the address, at its offset from the
   * window's base, and no other device; outside every window it fails and changes nothing.
   */
  lemma DispatchReachesOwner<D>(act: Behaviour<D>, g: Graph<D>, space: Space, addr: nat, access: Access)
    requires Inv(g)
    ensures
      var routes := g.Table(space);
      var (g', r) := Dispatch(act, g, space, addr, access);
      && (forall i | 0 <= i < |routes| && routes[i].Contains(space, addr) ::
            && routes[i].index < |g.devices|
            && addr - routes[i].base < routes[i].len
            && (forall j | 0 <= j < |routes| && routes[j].Contains(space, addr) :: j == i)
            && (g'.devices[routes[i].index], r)
                 == act(g.devices[routes[i].index], space, addr - routes[i].base, access)
            && g' == g.(devices := g.devices[routes[i].index := g'.devices[routes[i].index]]))
      && ((forall i | 0 <= i < |routes| :: !routes[i].Contains(space, addr)) ==>
            g' == g && r == Err(space.Missing(addr)))
  {
    var routes := g.Table(space);
    OwnerMeans(space, routes, addr);
    forall i | 0 <= i < |routes| && routes[i].Contains(space, addr)
      ensures Owner(space, routes, addr) == Some(routes[i])
      ensures forall j | 0 <= j < |routes| && routes[j].Contains(space, addr) :: j == i
    {
      OwnerUnique(space, routes, addr, i);
      forall j | 0 <= j < |routes| && routes[j].Contains(space, addr)
        ensures j == i
      {
        assert routes[j].Overlaps(space, routes[i]) && routes[i].Overlaps(space, routes[j]);
      }
    }
  }

  lemma OwnerIsRegistered(space: Space, routes: seq<Route>, addr: nat, count: nat)
    requires TableInv(space, routes, count)
    ensures Owner(space, routes, addr).Some? ==> Owner(space, routes, addr).value.index < count
  {
    OwnerMeans(space, routes, addr);
  }

  /**
   * After a successful registration, accesses inside the new window reach the new device at their offset from
   * the window's base, and all others do what they did before.
   */
  lemma RegisteredAnswers<D>(
      act: Behaviour<D>, g: Graph<D>, device: D, mmio: Option<Window>, ports: Option<Window>, irq: Option<nat>,
      space: Space, addr: nat, access: Access)
    requires Inv(g) && Register(g, device, mmio, ports, irq).1.Ok?
    ensures
      var window := if space.Mmio? then mmio else ports;
      var g' := Register(g, device, mmio, ports, irq).0;
      var (after, r) := Dispatch(act, g', space, addr, access);
      if Covers(space, window, addr) then
        var (d, answer) := act(device, space, addr - window.value.base, access);
        r == answer && after == g'.(devices := g.devices + [d])
      else
        var (old', answer) := Dispatch(act, g, space, addr, access);
        r == answer && after == g'.(devices := old'.devices + [device])
  {
    hide Register;
    hide TableInv;
    hide IrqInv;
    RegisterInstalls(g, device, mmio, ports, irq);
    OwnerIsRegistered(space, g.Table(space), addr, |g.devices|);
    var g' := Register(g, device, mmio, ports, irq).0;
    assert |g'.devices| == |g.devices| + 1 && g'.devices[..|g.devices|] == g.devices;
  }

  lemma DispatchKeepsInv<D>(act: Behaviour<D>, g: Graph<D>, space: Space, addr: nat, access: Access)
    requires Inv(g)
    ensures Inv(Dispatch(act, g, space, addr, access).0)
    ensures Dispatch(act, g, space, addr, access).0.(devices := g.devices) == g
  {
  }

  datatype Op<D> =
    | DoRegister(device: D, mmio: Option<Window>, ports: Option<Window>, irq: Option<nat>)
    | DoDispatch(space: Space, addr: nat, access: Access)

  function Step<D>(act: Behaviour<D>, g: Graph<D>, op: Op<D>): Graph<D> {
    match op
    case DoRegister(device, mmio, ports, irq) => Register(g, device, mmio, ports, irq).0
    case DoDispatch(space, addr, access) => Dispatch(act, g, space, addr, access).0
  }

  function Run<D>(act: Behaviour<D>, g: Graph<D>, ops: seq<Op<D>>): Graph<D>
    decreases |ops|
  {
    if ops == [] then g else Run(act, Step(act, g, ops[0]), ops[1..])
  }

  /** Over every run, windows stay disjoint and name registered devices, and no route is ever lost. */
  lemma {:induction false} ReachableInv<D>(act: Behaviour<D>, g: Graph<D>, ops: seq<Op<D>>)
    requires Inv(g)
    ensures Inv(Run(act, g, ops))
    ensures g.mmio <= Run(act, g, ops).mmio && g.ports <= Run(act, g, ops).ports
    decreases |ops|
  {
    if ops != [] {
      match ops[0] {
        case DoRegister(device, mmio, ports, irq) =>
          RegisterKeepsInv(g, device, mmio, ports, irq);
          FailedRegisterRestores(g, device, mmio, ports, irq);
        case DoDispatch(space, addr, access) => DispatchKeepsInv(act, g, space, addr, access);
      }
      ReachableInv(act, Step(act, g, ops[0]), ops[1..]);
    }
  }

  // ---- The graph as an object -------------------------------------------------

  class RouteTable {
    const space: Space
    var routes: seq<Route>

    constructor (space: Space)
      ensures this.space == space && routes == []
    {
      this.space := space;
      routes := [];
    }

    method InsertRoute(base: nat, len: nat, index: nat) returns (r: Result<(), DevError>)
      modifies this
      ensures Insert(space, old(routes), Route(base, len, index))
           == if r.Err? then Err(r.error) else Ok(routes)
      ensures r.Err? ==> routes == old(routes)
    {
      if len == 0 {
        return Err(space.Empty(base));
      }
      for i := 0 to |routes|
        invariant routes == old(routes)
        invariant FirstOverlap(space, routes, Route(base, len, index))
               == FirstOverlap(space, routes[i..], Route(base, len, index))
      {
        if routes[i].Overlaps(space, Route(base, len, index)) {
          return Err(space.Missing(routes[i].base));
        }
      }
      routes := routes + [Route(base, len, index)];
      r := Ok(());
    }

    method Translate(addr: nat) returns (r: Option<(nat, nat)>)
      ensures r == match Owner(space, routes, addr)
        case None => None
        case Some(route) => Some((route.index, addr - route.base))
    {
      for i := 0 to |routes|
        invariant Owner(space, routes, addr) == Owner(space, routes[i..], addr)
      {
        if routes[i].Contains(space, addr) {
          return Some((routes[i].index, addr - routes[i].base));
        }
      }
      r := None;
    }

    /** `retain(|r| r.device_index != index)`. */
    method Retain(index: nat)
      modifies this
      ensures routes == Without(old(routes), index)
    {
      var kept := [];
      for i := 0 to |routes|
        invariant routes == old(routes)
        invariant kept == Without(routes[..i], index)
      {
        WithoutSnoc(routes[..i], routes[i], index);
        assert routes[..i + 1] == routes[..i] + [routes[i]];
        if routes[i].index != index {
          kept := kept + [routes[i]];
        }
      }
      assert routes[..|routes|] == routes;
      routes := kept;
    }
  }

  class VirtualDeviceGraph<D> {
    const act: Behaviour<D>
    const mmio: RouteTable
    const ports: RouteTable
    var devices: seq<D>
    var irqs: seq<Irq>

    ghost predicate Valid() {
      mmio != ports && mmio.space == Mmio && ports.space == Ports
    }

    ghost function Value(): Graph<D>
      reads this, mmio, ports
    {
      Graph(devices, mmio.routes, ports.routes, irqs)
    }

    constructor (act: Behaviour<D>)
      ensures Valid() && fresh(mmio) && fresh(ports) && this.act == act
      ensures Value() == Graph([], [], [], []) && Inv(Value())
    {
      this.act := act;
      mmio := new RouteTable(Mmio);
      ports := new RouteTable(Ports);
      devices := [];
      irqs := [];
    }

    method RegisterDevice(device: D, mmioRange: Option<Window>, ioPorts: Option<Window>, irq: Option<nat>)
      returns (r: Result<nat, DevError>)
      requires Valid()
      modifies this, mmio, ports
      ensures (Value(), r) == Register(old(Value()), device, mmioRange, ioPorts, irq)
      ensures r.Ok? ==>
        && r.value == |old(devices)| && devices == old(devices) + [device]
        && Installed(Mmio, old(mmio.routes), mmio.routes, mmioRange, r.value)
        && Installed(Ports, old(ports.routes), ports.routes, ioPorts, r.value)
        && (irq.Some? ==> LineOf(irqs, r.value) == irq)
    {
      hide Installed;
      var index := |devices|;
      if mmioRange.Some? {
        var inserted := mmio.InsertRoute(mmioRange.value.base, mmioRange.value.len, index);
        if inserted.Err? {
          return Err(inserted.error);
        }
      }
      if ioPorts.Some? {
        var inserted := ports.InsertRoute(ioPorts.value.base, ioPorts.value.len, index);
        if inserted.Err? {
          mmio.Retain(index);
          return Err(inserted.error);
        }
      }
      if irq.Some? {
        irqs := Bind(irqs, index, irq.value);
      }
      devices := devices + [device];
      r := Ok(index);
      RegisterInstalls(old(Value()), device, mmioRange, ioPorts, irq);
    }

    method DispatchAccess(space: Space, addr: nat, access: Access) returns (r: Result<nat, DevError>)
      requires Valid()
      modifies this
      ensures (Value(), r) == Dispatch(act, old(Value()), space, addr, access)
    {
      var found: Option<(nat, nat)>;
      if space.Mmio? {
        found := mmio.Translate(addr);
      } else {
        found := ports.Translate(addr);
      }
      if found.None? {
        return Err(space.Missing(addr));
      }
      var (index, offset) := found.value;
      if index >= |devices| {
        return Err(UnknownDevice(index));
      }
      var (d, result) := act(devices[index], space, offset, access);
      devices := devices[index := d];
      r := result;
    }
  }

  // ---- The register-file device -------------------------------------------------

  datatype AnyTestDevice = TestDevice(id: nat, regs: seq<U64>)

  type TestDevice = d: AnyTestDevice | |d.regs| == REG_COUNT
    witness AnyTestDevice.TestDevice(0, [0, 0, 0, 0, 0, 0, 0, 0])

  const REG_COUNT: nat := 8
  const U32_MAX: U64 := 0xFFFF_FFFF

  /** The id is cut to 32 bits. */
  function NewTestDevice(id: nat): TestDevice {
    AnyTestDevice.TestDevice(id % 0x1_0000_0000, [0, 0, 0, 0, 0, 0, 0, 0])
  }

  predicate IsRegister(offset: nat) { offset % 8 == 0 && offset / 8 < REG_COUNT }

  /** The bits of an access: those of its width, of which a port access has at most 32. */
  function AccessMask(space: Space, width: Width): U64 {
    if space.Mmio? then width.Mask() else And(width.Mask(), U32_MAX)
  }

  function TestAct(d: TestDevice, space: Space, offset: nat, access: Access): (TestDevice, Result<nat, DevError>) {
    if !IsRegister(offset) then (d, Err(OffsetOutOfRange(offset)))
    else
      match access
      case Read(width) => (d, Ok(And(d.regs[offset / 8], AccessMask(space, width))))
      case Write(width, value) =>
        if And(value, Not(AccessMask(space, width))) != 0 then (d, Err(ValueTooWide(value, width)))
        else (d.(regs := d.regs[offset / 8 := value]), Ok(0))
  }

  /** A value that fits its access width is read back unchanged, and no other register moves. */
  lemma TestReadsBack(d: TestDevice, offset: nat, width: Width, value: U64, other: nat)
    requires IsRegister(offset) && IsRegister(other)
    ensures
      var (d', r) := TestAct(d, Mmio, offset, Write(width, value));
      && (r.Ok? <==> value <= width.Mask())
      && (r.Err? ==> d' == d && r.error == ValueTooWide(value, width))
      && (r.Ok? ==> TestAct(d', Mmio, offset, Read(width)).1 == Ok(value))
      && (other != offset ==> TestAct(d', Mmio, other, Read(Qword8)) == (d', TestAct(d, Mmio, other, Read(Qword8)).1))
  {
    hide And;
    hide Not;
    MaskFits(value, width);
    MaskKeepsLowBytes(value, width);
    RemainderOfSmall(value, width.Mask() + 1);
  }

  /** A port access carries at most 32 bits. */
  function PortWidth(width: Width): Width { if width == Qword8 then Dword4 else width }

  lemma PortMask(width: Width)
    ensures AccessMask(Ports, width) == PortWidth(width).Mask()
  {
    hide And;
    MaskKeepsLowBytes(width.Mask(), Dword4);
    assert Dword4.Mask() == U32_MAX;
    RemainderOfSmall(width.Mask(), U32_MAX + 1);
    if width == Qword8 {
      DivisionUnique(U64_MAX, U32_MAX + 1, U32_MAX, U32_MAX);
    }
  }

  /** The same through ports, for values of at most 32 bits. */
  lemma PortReadsBack(d: TestDevice, offset: nat, width: Width, value: U64, other: nat)
    requires IsRegister(offset) && IsRegister(other)
    ensures
      var (d', r) := TestAct(d, Ports, offset, Write(width, value));
      && (r.Ok? <==> value <= PortWidth(width).Mask())
      && (r.Err? ==> d' == d && r.error == ValueTooWide(value, width))
      && (r.Ok? ==> TestAct(d', Ports, offset, Read(width)).1 == Ok(value))
      && (other != offset ==> TestAct(d', Mmio, other, Read(Qword8)) == (d', TestAct(d, Mmio, other, Read(Qword8)).1))
  {
    hide And;
    hide Not;
    var w := PortWidth(width);
    PortMask(width);
    MaskFits(value, w);
    MaskKeepsLowBytes(value, w);
    RemainderOfSmall(value, w.Mask() + 1);
  }

  /** Only the eight aligned offsets below 64 are registers; any other access fails and changes nothing. */
  lemma OffRegister(d: TestDevice, space: Space, offset: nat, access: Access)
    ensures IsRegister(offset) <==> offset in {0, 8, 16, 24, 32, 40, 48, 56}
    ensures !IsRegister(offset) ==> TestAct(d, space, offset, access) == (d, Err(OffsetOutOfRange(offset)))
  {
  }

  // ---- The registration loop of `attach` --------------------------------------

  const ATTACH_LEN: nat := 64

  /** The number of devices whose windows fit before the window address, which wraps, comes round. */
  const TURN: nat := 0x10_0000_0000_0000

  /** `0x1000u64 + (i as u64) * 0x1000`, wrapping. */
  function AttachBase(i: nat): U64 { (i * 0x1000 % (U64_MAX + 1) + 0x1000) % (U64_MAX + 1) }

  lemma AttachBaseIs(i: nat)
    requires i <= TURN
    ensures AttachBase(i) == if i < TURN - 1 then 0x1000 * (i + 1) else if i == TURN - 1 then 0 else 0x1000
  {
    var n, m := i * 0x1000, U64_MAX + 1;
    if i < TURN - 1 {
      DivisionUnique(n, m, 0, n);
      DivisionUnique(n + 0x1000, m, 0, n + 0x1000);
    } else if i == TURN - 1 {
      DivisionUnique(n, m, 0, n);
      DivisionUnique(m, m, 1, 0);
    } else {
      DivisionUnique(m, m, 1, 0);
      DivisionUnique(0x1000, m, 0, 0x1000);
    }
  }

  function AttachRoute(i: nat): Route { Route(AttachBase(i), ATTACH_LEN, i) }

  function AttachIrq(i: nat): Irq { Irq(i, i % 256) }

  /** The graph that `attach` builds for `n` devices. */
  function Attached<D>(make: nat -> D, n: nat): Graph<D> {
    Graph(
      seq(n, i requires 0 <= i < n => make(i)),
      seq(n, i requires 0 <= i < n => AttachRoute(i)),
      [],
      seq(n, i requires 0 <= i < n => AttachIrq(i)))
  }

  lemma AttachedApart(i: nat, n: nat)
    requires i < n <= TURN
    ensures AttachRoute(i).Overlaps(Mmio, AttachRoute(n)) <==> i == 0 && n == TURN
  {
    hide AttachBase;
    AttachBaseIs(i);
    AttachBaseIs(n);
  }

  function AttachWindow(i: nat): Window { Window(AttachBase(i), ATTACH_LEN) }

  lemma AttachStep<D>(make: nat -> D, n: nat)
    requires n < TURN && Inv(Attached(make, n))
    ensures Register(Attached(make, n), make(n), Some(AttachWindow(n)), None, Some(n % 256))
         == (Attached(make, n + 1), Ok(n))
    ensures Inv(Attached(make, n + 1))
  {
    hide AttachBase;
    var g := Attached(make, n);
    forall i | 0 <= i < n
      ensures !g.mmio[i].Overlaps(Mmio, AttachRoute(n))
    {
      AttachedApart(i, n);
    }
    FirstOverlapMeans(Mmio, g.mmio, AttachRoute(n));
    BindNew(g.irqs, n, n % 256);
    AttachedGrows(make, n);
    RegisterKeepsInv(g, make(n), Some(AttachWindow(n)), None, Some(n % 256));
  }

  /** The window after the last that fits comes round to the first. */
  lemma AttachTurns<D>(make: nat -> D)
    ensures Register(Attached(make, TURN), make(TURN), Some(AttachWindow(TURN)), None, Some(TURN % 256)).1
         == Err(UnmappedAddress(0x1000))
  {
    hide AttachBase;
    AttachedApart(0, TURN);
    AttachBaseIs(0);
    assert Attached(make, TURN).mmio[0] == AttachRoute(0);
  }

  lemma AttachedGrows<D>(make: nat -> D, n: nat)
    ensures Attached(make, n + 1)
         == Graph(Attached(make, n).devices + [make(n)], Attached(make, n).mmio + [AttachRoute(n)], [],
                  Attached(make, n).irqs + [AttachIrq(n)])
  {
    hide AttachBase;
  }

  /** Windows of attached devices are disjoint. */
  lemma {:induction false} AttachedInv<D>(make: nat -> D, n: nat)
    requires n <= TURN
    ensures Inv(Attached(make, n))
  {
    hide AttachBase;
    if n > 0 {
      AttachedInv(make, n - 1);
      AttachStep(make, n - 1);
    }
  }

  /** Registration succeeds exactly for up to 2^52 devices; one more collides with the first. */
  method AttachDevices<D>(act: Behaviour<D>, make: nat -> D, count: nat)
    returns (g: VirtualDeviceGraph<D>, r: Result<(), DevError>)
    ensures fresh(g) && g.Valid()
    ensures r == if count <= TURN then Ok(()) else Err(UnmappedAddress(0x1000))
    ensures r.Ok? ==> g.Value() == Attached(make, count) && Inv(g.Value())
  {
    hide AttachBase;
    g := new VirtualDeviceGraph(act);
    for i := 0 to count
      invariant fresh(g) && fresh(g.mmio) && fresh(g.ports) && g.Valid()
      invariant i <= TURN && g.Value() == Attached(make, i) && Inv(g.Value())
    {
      if i < TURN {
        AttachStep(make, i);
      } else {
        AttachTurns(make);
      }
      var registered := g.RegisterDevice(make(i), Some(AttachWindow(i)), None, Some(i % 256));
      if registered.Err? {
        return g, Err(registered.error);
      }
    }
    r := Ok(());
  }

  lemma {:induction false} LineOfAttached(irqs: seq<Irq>, k: nat, first: nat)
    requires forall i | 0 <= i < |irqs| :: irqs[i] == Irq(first + i, (first + i) % 256)
    requires first <= k < first + |irqs|
    ensures LineOf(irqs, k) == Some(k % 256)
  {
    if k != first {
      LineOfAttached(irqs[1..], k, first + 1);
    }
  }

  /** Attached device `i` answers the 64 addresses from page `i + 1` on, on line `i` modulo 256. */
  lemma AttachedAnswers<D>(make: nat -> D, n: nat, i: nat, addr: nat)
    requires i < n <= TURN && i < 0xF_FFFF_FFFF_FFFF
    requires 0x1000 * (i + 1) <= addr < 0x1000 * (i + 1) + 64
    ensures Owner(Mmio, Attached(make, n).mmio, addr) == Some(Route(0x1000 * (i + 1), 64, i))
    ensures Attached(make, n).devices[i] == make(i)
    ensures LineOf(Attached(make, n).irqs, i) == Some(i % 256)
  {
    hide AttachBase;
    AttachBaseIs(i);
    AttachedInv(make, n);
    assert Attached(make, n).mmio[i] == AttachRoute(i);
    OwnerUnique(Mmio, Attached(make, n).mmio, addr, i);
    LineOfAttached(Attached(make, n).irqs, i, 0);
  }

  /** Attached devices share an interrupt line exactly when their numbers agree modulo 256. */
  lemma SharedLines<D>(make: nat -> D, n: nat, i: nat, j: nat)
    requires i < n && j < n
    ensures LineOf(Attached(make, n).irqs, i) == LineOf(Attached(make, n).irqs, j) <==> i % 256 == j % 256
  {
    LineOfAttached(Attached(make, n).irqs, i, 0);
    LineOfAttached(Attached(make, n).irqs, j, 0);
  }
}
