// Nested page table, page zeroizer and memory quota of crates/hyper-mm/src/lib.rs.
module Mm {
  import opened Bytes
  import opened Words
  import opened Wrappers

  const PAGE_SIZE: nat := 4096

  datatype Perms = Perms(r: bool, w: bool, x: bool) {
    predicate WriteExecute() { w && x }
  }

  datatype HostRange = HostRange(start: U64, len: U64) {
    function End(): U64 { SaturatingAdd(start, len) }

    predicate Overlaps(other: HostRange) { start < other.End() && other.start < End() }
  }

  datatype Mapping = Mapping(id: nat, gpa: U64, hpa: U64, len: U64, perms: Perms) {
    function Host(): HostRange { HostRange(hpa, len) }
  }

  datatype PageState = Zeroed | Assigned | Poisoned

  datatype MmError =
    | ZeroLength
    | WriteExecuteForbidden
    | OverlapsReservedHostRange
    | PageNotZeroed
    | PagePoisoned
    | UnknownMapping(id: nat)
    | QuotaExceeded(requestedMb: nat, availableMb: nat)

  datatype AllocationRecord = AllocationRecord(
    gpa: U64, hpa: U64, len: U64, id: nat, owner: string, zeroedBeforeAssign: bool)

  type Frames = map<nat, PageState>

  predicate Within(a: nat, start: nat, len: nat) { start <= a < start + len }

  // ---- Frames -----------------------------------------------------------------

  function FirstFrame(hpa: U64): nat { hpa / PAGE_SIZE }

  function LastFrame(hpa: U64, len: U64): nat
    requires len > 0
  {
    SaturatingAdd(hpa, len - 1) / PAGE_SIZE
  }

  /** Frame `f` is one of those covering `[hpa, hpa + len)`. */
  predicate Touches(hpa: U64, len: U64, f: nat) {
    len > 0 && FirstFrame(hpa) <= f <= LastFrame(hpa, len)
  }

  /** The frames touched are exactly those of the addressable bytes of the range. */
  lemma TouchesBytes(hpa: U64, len: U64, f: nat)
    ensures Touches(hpa, len, f) <==> exists a: U64 :: hpa <= a < hpa + len && FirstFrame(a) == f
  {
    if Touches(hpa, len, f) {
      var a: U64 := if f * PAGE_SIZE < hpa then hpa else f * PAGE_SIZE;
      assert hpa <= a < hpa + len && FirstFrame(a) == f;
    }
  }

  function StateOf(frames: Frames, f: nat): Option<PageState> {
    if f in frames then Some(frames[f]) else None
  }

  predicate Between(first: nat, f: nat, end: nat) { first <= f < end }

  function Painted(frames: Frames, first: nat, end: nat, s: PageState): Frames {
    map f | f in frames.Keys + (set g: nat | g < end && Between(first, g, end)) ::
      if Between(first, f, end) then s else frames[f]
  }

  function Paint(frames: Frames, hpa: U64, len: U64, s: PageState): Frames {
    if len == 0 then frames else Painted(frames, FirstFrame(hpa), LastFrame(hpa, len) + 1, s)
  }

  lemma PaintAt(frames: Frames, hpa: U64, len: U64, s: PageState, f: nat)
    ensures StateOf(Paint(frames, hpa, len, s), f) == if Touches(hpa, len, f) then Some(s) else StateOf(frames, f)
  {
  }

  lemma PaintedStep(frames: Frames, first: nat, end: nat, s: PageState)
    requires first <= end
    ensures Painted(frames, first, end + 1, s) == Painted(frames, first, end, s)[end := s]
  {
  }

  predicate AllZeroed(frames: Frames, first: nat, end: nat) {
    forall f | first <= f < end :: StateOf(frames, f) == Some(Zeroed)
  }

  function NotZeroedError(s: Option<PageState>): MmError {
    if s == Some(Poisoned) then PagePoisoned else PageNotZeroed
  }

  /** The error of the first frame that is not zeroed. */
  function AssignError(frames: Frames, first: nat, end: nat): Option<MmError>
    decreases end - first
  {
    if first >= end then None
    else if StateOf(frames, first) == Some(Zeroed) then AssignError(frames, first + 1, end)
    else Some(NotZeroedError(StateOf(frames, first)))
  }

  lemma {:induction false} AssignErrorMeans(frames: Frames, first: nat, end: nat)
    ensures AssignError(frames, first, end) == None <==> AllZeroed(frames, first, end)
    ensures AssignError(frames, first, end).Some? ==>
      exists f | first <= f < end ::
        && AllZeroed(frames, first, f) && StateOf(frames, f) != Some(Zeroed)
        && AssignError(frames, first, end) == Some(NotZeroedError(StateOf(frames, f)))
    decreases end - first
  {
    if first < end && StateOf(frames, first) == Some(Zeroed) {
      AssignErrorMeans(frames, first + 1, end);
      if AssignError(frames, first, end).Some? {
        var f :| first + 1 <= f < end
          && AllZeroed(frames, first + 1, f) && StateOf(frames, f) != Some(Zeroed)
          && AssignError(frames, first + 1, end) == Some(NotZeroedError(StateOf(frames, f)));
        assert AllZeroed(frames, first, f);
      }
    } else if first < end {
      assert AllZeroed(frames, first, first);
    }
  }

  class PageZeroizer {
    var frames: Frames

    constructor ()
      ensures frames == map[]
    {
      frames := map[];
    }

    /** The loop of `mark_zeroed` and `poison`, and the second loop of `assign`. */
    method Fill(hpa: U64, len: U64, s: PageState)
      requires len > 0
      modifies this
      ensures frames == Paint(old(frames), hpa, len, s)
    {
      var first, last := FirstFrame(hpa), LastFrame(hpa, len);
      assert frames == Painted(frames, first, first, s);
      for f := first to last + 1
        invariant frames == Painted(old(frames), first, f, s)
      {
        PaintedStep(old(frames), first, f, s);
        frames := frames[f := s];
      }
    }

    method MarkZeroed(hpa: U64, len: U64)
      modifies this
      ensures frames == Paint(old(frames), hpa, len, Zeroed)
    {
      if len == 0 {
        return;
      }
      Fill(hpa, len, Zeroed);
    }

    method Poison(hpa: U64, len: U64)
      modifies this
      ensures frames == Paint(old(frames), hpa, len, Poisoned)
    {
      if len == 0 {
        return;
      }
      Fill(hpa, len, Poisoned);
    }

    method Assign(hpa: U64, len: U64) returns (r: Result<(), MmError>)
      modifies this
      ensures (frames, r) == AssignFrames(old(frames), hpa, len)
    {
      if len == 0 {
        return Err(ZeroLength);
      }
      var first, last := FirstFrame(hpa), LastFrame(hpa, len);
      for f := first to last + 1
        invariant AssignError(frames, first, last + 1) == AssignError(frames, f, last + 1)
        invariant frames == old(frames)
      {
        if f !in frames {
          return Err(PageNotZeroed);
        }
        match frames[f]
        case Zeroed =>
        case Poisoned => return Err(PagePoisoned);
        case Assigned => return Err(PageNotZeroed);
      }
      Fill(hpa, len, Assigned);
      r := Ok(());
    }
  }

  function AssignFrames(frames: Frames, hpa: U64, len: U64): (Frames, Result<(), MmError>) {
    if len == 0 then (frames, Err(ZeroLength))
    else
      var e := AssignError(frames, FirstFrame(hpa), LastFrame(hpa, len) + 1);
      if e.Some? then (frames, Err(e.value)) else (Paint(frames, hpa, len, Assigned), Ok(()))
  }

  // ---- The table as a value ---------------------------------------------------

  datatype Table = Table(
    nextId: nat, mappings: map<nat, Mapping>, frames: Frames, reserved: Option<HostRange>, records: map<nat, Mapping>)

  function EmptyTable(reserved: Option<HostRange>): Table {
    Table(0, map[], map[], reserved, map[])
  }

  function Enforce(reserved: Option<HostRange>, hpa: U64, len: U64, perms: Perms): Option<MmError> {
    if len == 0 then Some(ZeroLength)
    else if perms.WriteExecute() then Some(WriteExecuteForbidden)
    else if reserved.Some? && HostRange(hpa, len).Overlaps(reserved.value) then Some(OverlapsReservedHostRange)
    else None
  }

  function Map(t: Table, gpa: U64, hpa: U64, len: U64, perms: Perms): (Table, Result<nat, MmError>) {
    var e := Enforce(t.reserved, hpa, len, perms);
    if e.Some? then (t, Err(e.value))
    else
      var (frames, r) := AssignFrames(t.frames, hpa, len);
      if r.Err? then (t, Err(r.error))
      else
        var m := Mapping(t.nextId, gpa, hpa, len, perms);
        (Table(t.nextId + 1, t.mappings[t.nextId := m], frames, t.reserved, t.records[t.nextId := m]), Ok(t.nextId))
  }

  function Unmap(t: Table, id: nat): (Table, Result<(), MmError>) {
    if id !in t.mappings then (t, Err(UnknownMapping(id)))
    else
      var t' := t.(mappings := t.mappings - {id}, records := t.records - {id});
      if id !in t.records then (t', Ok(()))
      else (t'.(frames := Paint(t.frames, t.records[id].hpa, t.records[id].len, Poisoned)), Ok(()))
  }

  function MarkZeroed(t: Table, hpa: U64, len: U64): Table {
    t.(frames := Paint(t.frames, hpa, len, Zeroed))
  }

  function Allocate(t: Table, owner: string, gpa: U64, hpa: U64, len: U64, perms: Perms)
    : (Table, Result<AllocationRecord, MmError>)
  {
    var e := Enforce(t.reserved, hpa, len, perms);
    if e.Some? then (t, Err(e.value))
    else
      var (t', r) := Map(MarkZeroed(t, hpa, len), gpa, hpa, len, perms);
      if r.Err? then (t', Err(r.error)) else (t', Ok(AllocationRecord(gpa, hpa, len, r.value, owner, true)))
  }

  /** `translate`: the live mappings in id order, the first that contains `gpa`. */
  function TranslateFrom(mappings: map<nat, Mapping>, id: nat, nextId: nat, gpa: U64): Option<U64>
    requires id <= nextId
    decreases nextId - id
  {
    if id == nextId then None
    else if id in mappings && Contains(mappings[id], gpa) then Some(Target(mappings[id], gpa))
    else TranslateFrom(mappings, id + 1, nextId, gpa)
  }

  predicate Contains(m: Mapping, gpa: U64) {
    m.gpa <= gpa < SaturatingAdd(m.gpa, m.len)
  }

  function Target(m: Mapping, gpa: U64): U64
    requires Contains(m, gpa)
  {
    SaturatingAdd(m.hpa, gpa - m.gpa)
  }

  function Translate(t: Table, gpa: U64): Option<U64> {
    TranslateFrom(t.mappings, 0, t.nextId, gpa)
  }

  /** The mapping covers the address and sends it to its host base plus the offset, clipped at the top. */
  predicate Sends(m: Mapping, gpa: U64, host: U64) {
    && m.gpa <= gpa < m.gpa + m.len && gpa < U64_MAX
    && host == if m.hpa + (gpa - m.gpa) <= U64_MAX then m.hpa + (gpa - m.gpa) else U64_MAX
  }

  // ---- What one call does -----------------------------------------------------

  predicate FramesZeroed(t: Table, hpa: U64, len: U64)
    requires len > 0
  {
    AllZeroed(t.frames, FirstFrame(hpa), LastFrame(hpa, len) + 1)
  }

  /** `map` succeeds exactly on an enforceable range whose every frame is zeroed, and otherwise changes nothing. */
  lemma MapIsAllOrNothing(t: Table, gpa: U64, hpa: U64, len: U64, perms: Perms)
    ensures
      var (t', r) := Map(t, gpa, hpa, len, perms);
      && (r.Ok? <==> Enforce(t.reserved, hpa, len, perms) == None && FramesZeroed(t, hpa, len))
      && (r.Err? ==> t' == t)
      && (r.Ok? ==> t'.mappings == t.mappings[r.value := Mapping(r.value, gpa, hpa, len, perms)])
  {
    if Enforce(t.reserved, hpa, len, perms) == None {
      AssignErrorMeans(t.frames, FirstFrame(hpa), LastFrame(hpa, len) + 1);
    }
  }

  /** What a successful `map` changes, part by part. */
  lemma MapEffect(t: Table, gpa: U64, hpa: U64, len: U64, perms: Perms)
    requires Map(t, gpa, hpa, len, perms).1.Ok?
    ensures
      var (t', r) := Map(t, gpa, hpa, len, perms);
      && r.value == t.nextId && t'.nextId == t.nextId + 1 && t'.reserved == t.reserved
      && t'.mappings == t.mappings[t.nextId := Mapping(t.nextId, gpa, hpa, len, perms)]
      && t'.records == t.records[t.nextId := Mapping(t.nextId, gpa, hpa, len, perms)]
      && forall f: nat ::
           StateOf(t'.frames, f) == if Touches(hpa, len, f) then Some(Assigned) else StateOf(t.frames, f)
  {
    forall f: nat
      ensures StateOf(Map(t, gpa, hpa, len, perms).0.frames, f)
           == if Touches(hpa, len, f) then Some(Assigned) else StateOf(t.frames, f)
    {
      PaintAt(t.frames, hpa, len, Assigned, f);
    }
  }

  /** What `unmap` changes: the one mapping and its record go, its frames are poisoned, the rest stays. */
  lemma UnmapEffect(t: Table, id: nat)
    requires Inv(t)
    ensures
      var (t', r) := Unmap(t, id);
      && t'.nextId == t.nextId && t'.reserved == t.reserved
      && t'.mappings.Keys == t.mappings.Keys - {id}
      && (forall i | i in t'.mappings :: t'.mappings[i] == t.mappings[i])
      && t'.records == t'.mappings
      && (r == if id in t.mappings then Ok(()) else Err(UnknownMapping(id)))
      && forall f: nat ::
           StateOf(t'.frames, f) == if Owns(t, id, f) then Some(Poisoned) else StateOf(t.frames, f)
  {
    forall f: nat
      ensures StateOf(Unmap(t, id).0.frames, f) == if Owns(t, id, f) then Some(Poisoned) else StateOf(t.frames, f)
    {
      if id in t.mappings {
        PaintAt(t.frames, t.mappings[id].hpa, t.mappings[id].len, Poisoned, f);
      }
    }
  }

  /** Which ranges may be mapped: not empty, not writable and executable, and apart from the reserved range. */
  lemma EnforceExactly(reserved: Option<HostRange>, hpa: U64, len: U64, perms: Perms)
    ensures Enforce(reserved, hpa, len, perms) == None <==>
      && len > 0 && !(perms.w && perms.x)
      && (reserved.Some? ==>
            || hpa >= U64_MAX || reserved.value.start >= U64_MAX
            || hpa >= reserved.value.start + reserved.value.len || reserved.value.start >= hpa + len)
    ensures Enforce(reserved, hpa, len, perms) == Some(ZeroLength) <==> len == 0
    ensures Enforce(reserved, hpa, len, perms) == Some(WriteExecuteForbidden) <==> len > 0 && perms.w && perms.x
    ensures Enforce(reserved, hpa, len, perms) in
      {None, Some(ZeroLength), Some(WriteExecuteForbidden), Some(OverlapsReservedHostRange)}
  {
  }

  /** Two ranges that hold addresses overlap exactly when they share one below the top of the address space. */
  lemma OverlapsShares(a: HostRange, b: HostRange)
    requires a.len > 0 && b.len > 0
    ensures a.Overlaps(b) <==>
      exists x: U64 :: x < U64_MAX && Within(x, a.start, a.len) && Within(x, b.start, b.len)
  {
    if a.Overlaps(b) {
      var x: U64 := if a.start < b.start then b.start else a.start;
      assert x < U64_MAX && Within(x, a.start, a.len) && Within(x, b.start, b.len);
    }
  }

  lemma ZeroedThenAssigned(frames: Frames, hpa: U64, len: U64)
    requires len > 0
    ensures AssignFrames(Paint(frames, hpa, len, Zeroed), hpa, len).1.Ok?
    ensures AssignFrames(Paint(frames, hpa, len, Zeroed), hpa, len).0 == Paint(frames, hpa, len, Assigned)
  {
    var z := Paint(frames, hpa, len, Zeroed);
    AssignErrorMeans(z, FirstFrame(hpa), LastFrame(hpa, len) + 1);
    assert Paint(z, hpa, len, Assigned) == Paint(frames, hpa, len, Assigned);
  }

  /** `allocate` fails exactly when `enforce` does, and then changes nothing. */
  lemma AllocateFailsLikeEnforce(t: Table, owner: string, gpa: U64, hpa: U64, len: U64, perms: Perms)
    ensures
      var (t', r) := Allocate(t, owner, gpa, hpa, len, perms);
      var e := Enforce(t.reserved, hpa, len, perms);
      && (e.Some? ==> t' == t && r == Err(e.value))
      && (e.None? ==>
        && r == Ok(AllocationRecord(gpa, hpa, len, t.nextId, owner, true))
        && t'.frames == Paint(t.frames, hpa, len, Assigned)
        && t'.mappings == t.mappings[t.nextId := Mapping(t.nextId, gpa, hpa, len, perms)])
  {
    if Enforce(t.reserved, hpa, len, perms) == None {
      ZeroedThenAssigned(t.frames, hpa, len);
    }
  }

  // ---- The structural invariant -----------------------------------------------

  predicate WellFormed(id: nat, m: Mapping, nextId: nat) {
    m.id == id && id < nextId && m.len > 0 && !m.perms.WriteExecute()
  }

  /** The wrapper's records are the inner table, ids are fresh, and nothing is writable and executable. */
  predicate Inv(t: Table) {
    && t.records == t.mappings
    && forall id | id in t.mappings :: WellFormed(id, t.mappings[id], t.nextId)
  }

  predicate WriteExecutePages(t: Table) {
    exists id | id in t.records :: t.records[id].perms.WriteExecute()
  }

  predicate MapsReserved(t: Table) {
    t.reserved.Some? && exists id | id in t.records :: t.records[id].Host().Overlaps(t.reserved.value)
  }

  datatype Op =
    | DoMap(gpa: U64, hpa: U64, len: U64, perms: Perms)
    | DoUnmap(id: nat)
    | DoAllocate(owner: string, gpa: U64, hpa: U64, len: U64, perms: Perms)
    | DoZero(hpa: U64, len: U64)
    | DoAssign(hpa: U64, len: U64)
    | DoPoison(hpa: U64, len: U64)
    | DoReserve(range: HostRange)

  function Step(t: Table, op: Op): Table {
    match op
    case DoMap(gpa, hpa, len, perms) => Map(t, gpa, hpa, len, perms).0
    case DoUnmap(id) => Unmap(t, id).0
    case DoAllocate(owner, gpa, hpa, len, perms) => Allocate(t, owner, gpa, hpa, len, perms).0
    case DoZero(hpa, len) => MarkZeroed(t, hpa, len)
    case DoAssign(hpa, len) => t.(frames := AssignFrames(t.frames, hpa, len).0)
    case DoPoison(hpa, len) => t.(frames := Paint(t.frames, hpa, len, Poisoned))
    case DoReserve(range) => t.(reserved := Some(range))
  }

  function Run(t: Table, ops: seq<Op>): Table
    decreases ops
  {
    if ops == [] then t else Run(Step(t, ops[0]), ops[1..])
  }

  lemma StepKeepsInv(t: Table, op: Op)
    requires Inv(t)
    ensures Inv(Step(t, op))
    ensures !MapsReserved(t) && !op.DoReserve? ==> !MapsReserved(Step(t, op))
    ensures op.DoReserve? ==>
      (MapsReserved(Step(t, op)) <==> exists id | id in t.mappings :: t.mappings[id].Host().Overlaps(op.range))
  {
    if op.DoAllocate? {
      AllocateFailsLikeEnforce(t, op.owner, op.gpa, op.hpa, op.len, op.perms);
    }
  }

  /**
   * In every reachable table the records are the live mappings and no page is writable and
   * executable; with the reserved range fixed beforehand, no mapping overlaps it.
   */
  lemma {:induction false} ReachableInv(t: Table, ops: seq<Op>)
    requires Inv(t)
    ensures Inv(Run(t, ops)) && !WriteExecutePages(Run(t, ops))
    ensures !MapsReserved(t) && (forall i | 0 <= i < |ops| :: !ops[i].DoReserve?) ==> !MapsReserved(Run(t, ops))
    decreases ops
  {
    if ops != [] {
      StepKeepsInv(t, ops[0]);
      ReachableInv(Step(t, ops[0]), ops[1..]);
    }
  }

  /** Reserving a range late leaves a mapping inside it. */
  lemma LateReserveIsNotChecked()
    ensures MapsReserved(Run(EmptyTable(None),
      [DoAllocate("vm", 0, 0x1000, 0x1000, Perms(true, true, false)), DoReserve(HostRange(0x1000, 0x1000))]))
  {
    var ops := [DoAllocate("vm", 0, 0x1000, 0x1000, Perms(true, true, false)), DoReserve(HostRange(0x1000, 0x1000))];
    var t := Step(EmptyTable(None), ops[0]);
    AllocateFailsLikeEnforce(EmptyTable(None), "vm", 0, 0x1000, 0x1000, Perms(true, true, false));
    assert Run(t, ops[1..]) == Step(t, ops[1]);
    assert Step(t, ops[1]).records[0].Host().Overlaps(HostRange(0x1000, 0x1000));
  }

  // ---- Translation ------------------------------------------------------------

  lemma {:induction false} TranslateFromLeast(t: Table, id: nat, gpa: U64)
    requires id <= t.nextId
    ensures TranslateFrom(t.mappings, id, t.nextId, gpa) == None
       <==> forall i | id <= i < t.nextId && i in t.mappings :: !Contains(t.mappings[i], gpa)
    ensures TranslateFrom(t.mappings, id, t.nextId, gpa).Some? ==>
      exists i | id <= i < t.nextId ::
        && i in t.mappings && Contains(t.mappings[i], gpa)
        && TranslateFrom(t.mappings, id, t.nextId, gpa) == Some(Target(t.mappings[i], gpa))
        && forall j | id <= j < i && j in t.mappings :: !Contains(t.mappings[j], gpa)
    decreases t.nextId - id
  {
    if id < t.nextId && !(id in t.mappings && Contains(t.mappings[id], gpa)) {
      TranslateFromLeast(t, id + 1, gpa);
    }
  }

  /** Deny by default; of several mappings that contain an address, the oldest translates it. */
  lemma TranslateIsOldest(t: Table, gpa: U64)
    requires Inv(t)
    ensures Translate(t, gpa) == None <==> forall i | i in t.mappings :: !Contains(t.mappings[i], gpa)
    ensures Translate(t, gpa).Some? ==>
      exists i | i in t.mappings ::
        && Contains(t.mappings[i], gpa) && Translate(t, gpa) == Some(Target(t.mappings[i], gpa))
        && forall j | j in t.mappings && j < i :: !Contains(t.mappings[j], gpa)
  {
    TranslateFromLeast(t, 0, gpa);
  }

  /** The oldest mapping over an address sends it to its own host base plus the offset, clipped at the top. */
  lemma TranslateInNumbers(t: Table, i: nat, gpa: U64)
    requires Inv(t) && i in t.mappings
    requires Within(gpa, t.mappings[i].gpa, t.mappings[i].len) && gpa < U64_MAX
    requires forall j | j in t.mappings && j < i :: !Within(gpa, t.mappings[j].gpa, t.mappings[j].len)
    ensures
      var host := t.mappings[i].hpa + (gpa - t.mappings[i].gpa);
      Translate(t, gpa) == Some(if host <= U64_MAX then host else U64_MAX)
  {
    assert Contains(t.mappings[i], gpa);
    TranslateIsOldest(t, gpa);
    var k :| k in t.mappings && Contains(t.mappings[k], gpa) && Translate(t, gpa) == Some(Target(t.mappings[k], gpa))
      && forall j | j in t.mappings && j < k :: !Contains(t.mappings[j], gpa);
    assert k == i;
  }

  /** Nothing is translated outside every mapping, nor at the last guest address. */
  lemma UncoveredIsUnmapped(t: Table, gpa: U64)
    requires Inv(t)
    ensures Translate(t, gpa) == None
       <==> (gpa == U64_MAX || forall i | i in t.mappings :: !Within(gpa, t.mappings[i].gpa, t.mappings[i].len))
  {
    TranslateIsOldest(t, gpa);
  }

  /** The mapping behind a translation. */
  lemma OldestOf(t: Table, gpa: U64) returns (i: nat)
    requires Inv(t) && Translate(t, gpa).Some?
    ensures gpa < U64_MAX && i in t.mappings && Within(gpa, t.mappings[i].gpa, t.mappings[i].len)
    ensures forall j | j in t.mappings && j < i :: !Within(gpa, t.mappings[j].gpa, t.mappings[j].len)
  {
    TranslateIsOldest(t, gpa);
    i :| i in t.mappings && Contains(t.mappings[i], gpa)
      && forall j | j in t.mappings && j < i :: !Contains(t.mappings[j], gpa);
  }

  /** What a new mapping changes: each address it alone covers goes to its host range, and older translations stay. */
  lemma NewestTranslates(t: Table, t': Table, m: Mapping, gpa: U64)
    requires Inv(t) && Inv(t') && t'.mappings == t.mappings[t.nextId := m]
    requires gpa < U64_MAX
    ensures Translate(t, gpa).Some? ==> Translate(t', gpa) == Translate(t, gpa)
    ensures Translate(t, gpa).None? && Within(gpa, m.gpa, m.len) && m.hpa + (gpa - m.gpa) <= U64_MAX ==>
      Translate(t', gpa) == Some(m.hpa + (gpa - m.gpa))
  {
    hide Translate;
    UncoveredIsUnmapped(t, gpa);
    if Translate(t, gpa).Some? {
      var i := OldestOf(t, gpa);
      TranslateInNumbers(t, i, gpa);
      TranslateInNumbers(t', i, gpa);
    } else if Within(gpa, m.gpa, m.len) {
      TranslateInNumbers(t', t.nextId, gpa);
    }
  }

  /**
   * A successful map or allocation sends every address `gpa + o` of its range to `hpa + o`, unless an older
   * mapping covers it already, and moves no address that was translated before.
   */
  lemma MappedIsTranslated(t: Table, owner: string, gpa: U64, hpa: U64, len: U64, perms: Perms, o: nat)
    requires Inv(t) && o < len && gpa + o < U64_MAX && hpa + o <= U64_MAX
    requires forall i | i in t.mappings :: !Within(gpa + o, t.mappings[i].gpa, t.mappings[i].len)
    ensures Map(t, gpa, hpa, len, perms).1.Ok? ==> Translate(Map(t, gpa, hpa, len, perms).0, gpa + o) == Some(hpa + o)
    ensures Allocate(t, owner, gpa, hpa, len, perms).1.Ok? ==>
      Translate(Allocate(t, owner, gpa, hpa, len, perms).0, gpa + o) == Some(hpa + o)
  {
    hide Translate;
    hide Map;
    hide Allocate;
    var m := Mapping(t.nextId, gpa, hpa, len, perms);
    UncoveredIsUnmapped(t, gpa + o);
    AllocateFailsLikeEnforce(t, owner, gpa, hpa, len, perms);
    StepKeepsInv(t, DoMap(gpa, hpa, len, perms));
    StepKeepsInv(t, DoAllocate(owner, gpa, hpa, len, perms));
    if Map(t, gpa, hpa, len, perms).1.Ok? {
      MapEffect(t, gpa, hpa, len, perms);
      NewestTranslates(t, Map(t, gpa, hpa, len, perms).0, m, gpa + o);
    }
    if Allocate(t, owner, gpa, hpa, len, perms).1.Ok? {
      NewestTranslates(t, Allocate(t, owner, gpa, hpa, len, perms).0, m, gpa + o);
    }
  }

  /** No map or allocation, whatever its outcome, moves an address that was translated before. */
  lemma OldTranslationsStay(t: Table, owner: string, gpa: U64, hpa: U64, len: U64, perms: Perms, g: U64)
    requires Inv(t) && Translate(t, g).Some?
    ensures Translate(Map(t, gpa, hpa, len, perms).0, g) == Translate(t, g)
    ensures Translate(Allocate(t, owner, gpa, hpa, len, perms).0, g) == Translate(t, g)
  {
    hide Translate;
    hide Map;
    hide Allocate;
    var m := Mapping(t.nextId, gpa, hpa, len, perms);
    MapIsAllOrNothing(t, gpa, hpa, len, perms);
    assert g < U64_MAX by {
      UncoveredIsUnmapped(t, g);
    }
    AllocateFailsLikeEnforce(t, owner, gpa, hpa, len, perms);
    StepKeepsInv(t, DoMap(gpa, hpa, len, perms));
    StepKeepsInv(t, DoAllocate(owner, gpa, hpa, len, perms));
    if Map(t, gpa, hpa, len, perms).1.Ok? {
      MapEffect(t, gpa, hpa, len, perms);
      NewestTranslates(t, Map(t, gpa, hpa, len, perms).0, m, g);
    }
    if Allocate(t, owner, gpa, hpa, len, perms).1.Ok? {
      NewestTranslates(t, Allocate(t, owner, gpa, hpa, len, perms).0, m, g);
    }
  }

  /** An unmapped mapping translates nothing more, and what an older one translated stays. */
  lemma UnmapUntranslates(t: Table, id: nat, g: U64)
    requires Inv(t) && id in t.mappings
    ensures
      var t' := Unmap(t, id).0;
      && (Translate(t', g).Some? ==>
            exists i :: i in t.mappings && i != id && Within(g, t.mappings[i].gpa, t.mappings[i].len))
      && (!Within(g, t.mappings[id].gpa, t.mappings[id].len) ==> Translate(t', g) == Translate(t, g))
  {
    hide Translate;
    hide Target;
    hide Unmap;
    var t' := Unmap(t, id).0;
    StepKeepsInv(t, DoUnmap(id));
    UncoveredIsUnmapped(t', g);
    UncoveredIsUnmapped(t, g);
    UnmapEffect(t, id);
    assert forall i | i in t.mappings && i != id :: i in t'.mappings;
    if !Within(g, t.mappings[id].gpa, t.mappings[id].len) && Translate(t, g).Some? {
      var i := OldestOf(t, g);
      TranslateInNumbers(t, i, g);
      TranslateInNumbers(t', i, g);
    }
  }

  /** A target stays inside its mapping's frames, and leaves `[hpa, end)` only at the last address. */
  lemma TargetInside(m: Mapping, gpa: U64)
    requires Contains(m, gpa)
    ensures Touches(m.hpa, m.len, FirstFrame(Target(m, gpa)))
    ensures m.hpa <= Target(m, gpa)
    ensures Target(m, gpa) < m.Host().End() || Target(m, gpa) == U64_MAX == m.Host().End()
  {
  }

  /**
   * No translation lands in the reserved range as the code computes it, clipped at the top of
   * the address space; in the unclipped range it does exactly at the one address the clip loses.
   */
  lemma TranslateAvoidsReserved(t: Table, gpa: U64)
    requires Inv(t) && !MapsReserved(t) && t.reserved.Some? && Translate(t, gpa).Some?
    ensures
      var a, range := Translate(t, gpa).value, t.reserved.value;
      && !(range.start <= a < range.End())
      && (range.start <= a < range.start + range.len <==> a == U64_MAX < range.start + range.len)
  {
    TranslateIsOldest(t, gpa);
    var i :| i in t.mappings && Contains(t.mappings[i], gpa) && Translate(t, gpa) == Some(Target(t.mappings[i], gpa));
    TargetInside(t.mappings[i], gpa);
    assert !t.records[i].Host().Overlaps(t.reserved.value);
  }

  /** The last address can be mapped although the reserved range contains it. */
  lemma LastAddressEscapes()
    ensures
      var t := EmptyTable(Some(HostRange(U64_MAX - 0xFFF, 0x1000)));
      var t' := Step(t, DoAllocate("vm", 0, U64_MAX, 1, Perms(true, false, false)));
      !MapsReserved(t) && Translate(t', 0) == Some(U64_MAX)
  {
    var t := EmptyTable(Some(HostRange(U64_MAX - 0xFFF, 0x1000)));
    AllocateFailsLikeEnforce(t, "vm", 0, U64_MAX, 1, Perms(true, false, false));
    var t' := Step(t, DoAllocate("vm", 0, U64_MAX, 1, Perms(true, false, false)));
    assert t'.nextId == 1;
  }

  /** The last address of the address space, mapped at guest address 0. */
  const LAST_ADDRESS: Op := DoAllocate("vm", 0, U64_MAX, 1, Perms(true, false, false))

  lemma LastAddressMaps(range: HostRange)
    ensures Translate(Step(EmptyTable(Some(range)), LAST_ADDRESS), 0) == Some(U64_MAX)
  {
    AllocateFailsLikeEnforce(EmptyTable(Some(range)), "vm", 0, U64_MAX, 1, Perms(true, false, false));
    assert Step(EmptyTable(Some(range)), LAST_ADDRESS).nextId == 1;
  }

  predicate LandsInside(t: Table, range: HostRange, gpa: U64) {
    Translate(t, gpa).Some? && range.start <= Translate(t, gpa).value < range.start + range.len
  }

  lemma {:induction false} ReservationStays(t: Table, ops: seq<Op>)
    requires forall i | 0 <= i < |ops| :: !ops[i].DoReserve?
    ensures Run(t, ops).reserved == t.reserved
    decreases ops
  {
    hide Map;
    if ops != [] {
      ReservedKept(t, ops[0]);
      ReservationStays(Step(t, ops[0]), ops[1..]);
    }
  }

  lemma ReservedKept(t: Table, op: Op)
    requires !op.DoReserve?
    ensures Step(t, op).reserved == t.reserved
  {
  }

  /**
   * A range reserved from the start is never the target of a translation, over any run that leaves it
   * reserved, exactly if it ends inside the 64-bit address space.
   */
  lemma ReservedIsSafeExactly(range: HostRange)
    ensures (forall ops: seq<Op>, gpa: U64 | (forall i | 0 <= i < |ops| :: !ops[i].DoReserve?) ::
              !LandsInside(Run(EmptyTable(Some(range)), ops), range, gpa))
       <==> range.start + range.len <= U64_MAX
  {
    hide Step;
    hide Translate;
    var t0 := EmptyTable(Some(range));
    if range.start + range.len <= U64_MAX {
      forall ops: seq<Op>, gpa: U64 | forall i | 0 <= i < |ops| :: !ops[i].DoReserve?
        ensures !LandsInside(Run(t0, ops), range, gpa)
      {
        ReachableInv(t0, ops);
        ReservationStays(t0, ops);
        if Translate(Run(t0, ops), gpa).Some? {
          TranslateAvoidsReserved(Run(t0, ops), gpa);
        }
      }
    } else {
      var ops := [LAST_ADDRESS];
      LastAddressMaps(range);
      assert Run(t0, ops) == Step(t0, ops[0]);
      assert LandsInside(Run(t0, ops), range, 0);
    }
  }

  // ---- Frame ownership --------------------------------------------------------

  predicate Owns(t: Table, id: nat, f: nat) {
    id in t.mappings && Touches(t.mappings[id].hpa, t.mappings[id].len, f)
  }

  /** Live mappings own disjoint sets of frames, and every frame owned is `Assigned`. */
  ghost predicate Exclusive(t: Table) {
    && (forall id: nat, f: nat | Owns(t, id, f) :: StateOf(t.frames, f) == Some(Assigned))
    && forall i: nat, j: nat, f: nat | Owns(t, i, f) && Owns(t, j, f) :: i == j
  }

  /** Some frame of `[hpa, hpa + len)` belongs to a live mapping. */
  ghost predicate InUse(t: Table, hpa: U64, len: U64) {
    exists id: nat, f: nat :: Owns(t, id, f) && Touches(hpa, len, f)
  }

  /** The operations that could take frames from under a live mapping do not reach any. */
  ghost predicate Disciplined(t: Table, op: Op) {
    match op
    case DoZero(hpa, len) => !InUse(t, hpa, len)
    case DoPoison(hpa, len) => !InUse(t, hpa, len)
    case DoAllocate(_, _, hpa, len, perms) => Enforce(t.reserved, hpa, len, perms) == None ==> !InUse(t, hpa, len)
    case _ => true
  }

  lemma RepaintKeeps(t: Table, hpa: U64, len: U64, s: PageState)
    requires Exclusive(t) && s != Assigned
    ensures Exclusive(t.(frames := Paint(t.frames, hpa, len, s))) <==> !InUse(t, hpa, len)
  {
    var t' := t.(frames := Paint(t.frames, hpa, len, s));
    forall id: nat, f: nat
      ensures Owns(t', id, f) == Owns(t, id, f)
      ensures StateOf(t'.frames, f) == if Touches(hpa, len, f) then Some(s) else StateOf(t.frames, f)
    {
      PaintAt(t.frames, hpa, len, s, f);
    }
    if !InUse(t, hpa, len) {
      forall id: nat, f: nat | Owns(t', id, f)
        ensures StateOf(t'.frames, f) == Some(Assigned)
      {
        assert Owns(t, id, f);
      }
    }
  }

  /** A table that takes over `[hpa, hpa + len)` for a new mapping is exclusive iff the range was not in use. */
  lemma TakeOver(t: Table, t': Table, m: Mapping)
    requires Exclusive(t) && t.nextId !in t.mappings
    requires t'.mappings == t.mappings[t.nextId := m] && t'.frames == Paint(t.frames, m.hpa, m.len, Assigned)
    ensures Exclusive(t') <==> !InUse(t, m.hpa, m.len)
  {
    forall id: nat, f: nat
      ensures id != t.nextId ==> Owns(t', id, f) == Owns(t, id, f)
      ensures Owns(t', t.nextId, f) == Touches(m.hpa, m.len, f)
      ensures StateOf(t'.frames, f) == if Touches(m.hpa, m.len, f) then Some(Assigned) else StateOf(t.frames, f)
    {
      PaintAt(t.frames, m.hpa, m.len, Assigned, f);
    }
    if InUse(t, m.hpa, m.len) {
      var id: nat, f: nat :| Owns(t, id, f) && Touches(m.hpa, m.len, f);
      assert Owns(t', id, f) && Owns(t', t.nextId, f);
    }
  }

  lemma ZeroedNotInUse(t: Table, hpa: U64, len: U64)
    requires Exclusive(t) && len > 0 && FramesZeroed(t, hpa, len)
    ensures !InUse(t, hpa, len)
  {
    forall id: nat, f: nat | Owns(t, id, f)
      ensures !Touches(hpa, len, f)
    {
      assert StateOf(t.frames, f) != Some(Zeroed);
    }
  }

  lemma MapKeepsExclusive(t: Table, gpa: U64, hpa: U64, len: U64, perms: Perms)
    requires Inv(t) && Exclusive(t)
    ensures Exclusive(Map(t, gpa, hpa, len, perms).0)
  {
    MapIsAllOrNothing(t, gpa, hpa, len, perms);
    var (t', r) := Map(t, gpa, hpa, len, perms);
    if r.Ok? {
      ZeroedNotInUse(t, hpa, len);
      TakeOver(t, t', Mapping(t.nextId, gpa, hpa, len, perms));
    }
  }

  lemma AllocateKeepsExclusive(t: Table, owner: string, gpa: U64, hpa: U64, len: U64, perms: Perms)
    requires Inv(t) && Exclusive(t)
    ensures Exclusive(Allocate(t, owner, gpa, hpa, len, perms).0)
       <==> (Enforce(t.reserved, hpa, len, perms) == None ==> !InUse(t, hpa, len))
  {
    AllocateFailsLikeEnforce(t, owner, gpa, hpa, len, perms);
    if Enforce(t.reserved, hpa, len, perms) == None {
      TakeOver(t, Allocate(t, owner, gpa, hpa, len, perms).0, Mapping(t.nextId, gpa, hpa, len, perms));
    }
  }

  lemma UnmapKeepsExclusive(t: Table, id: nat)
    requires Inv(t) && Exclusive(t)
    ensures Exclusive(Unmap(t, id).0)
  {
    if id in t.mappings {
      var m := t.mappings[id];
      var rest := t.(mappings := t.mappings - {id}, records := t.records - {id});
      forall i: nat, f: nat
        ensures Owns(rest, i, f) == (i != id && Owns(t, i, f))
      {
      }
      forall i: nat, f: nat | Owns(rest, i, f)
        ensures !Touches(m.hpa, m.len, f)
      {
        assert Owns(t, i, f) && !Owns(t, id, f);
      }
      RepaintKeeps(rest, m.hpa, m.len, Poisoned);
    }
  }

  lemma AssignKeepsExclusive(t: Table, hpa: U64, len: U64)
    requires Exclusive(t)
    ensures Exclusive(t.(frames := AssignFrames(t.frames, hpa, len).0))
  {
    var t' := t.(frames := AssignFrames(t.frames, hpa, len).0);
    forall id: nat, f: nat
      ensures Owns(t', id, f) == Owns(t, id, f)
      ensures StateOf(t'.frames, f) == StateOf(t.frames, f) || StateOf(t'.frames, f) == Some(Assigned)
    {
      PaintAt(t.frames, hpa, len, Assigned, f);
    }
  }

  /** One call keeps frames exclusive exactly when it is disciplined. */
  lemma StepExclusive(t: Table, op: Op)
    requires Inv(t) && Exclusive(t)
    ensures Exclusive(Step(t, op)) <==> Disciplined(t, op)
  {
    match op
    case DoMap(gpa, hpa, len, perms) => MapKeepsExclusive(t, gpa, hpa, len, perms);
    case DoUnmap(id) => UnmapKeepsExclusive(t, id);
    case DoAllocate(owner, gpa, hpa, len, perms) => AllocateKeepsExclusive(t, owner, gpa, hpa, len, perms);
    case DoZero(hpa, len) => RepaintKeeps(t, hpa, len, Zeroed);
    case DoAssign(hpa, len) => AssignKeepsExclusive(t, hpa, len);
    case DoPoison(hpa, len) => RepaintKeeps(t, hpa, len, Poisoned);
    case DoReserve(range) =>
      forall id: nat, f: nat
        ensures Owns(Step(t, op), id, f) == Owns(t, id, f)
      {
      }
  }

  ghost predicate DisciplinedRun(t: Table, ops: seq<Op>)
    decreases ops
  {
    ops == [] || (Disciplined(t, ops[0]) && DisciplinedRun(Step(t, ops[0]), ops[1..]))
  }

  /** Over every disciplined run, live mappings own disjoint sets of assigned frames. */
  lemma {:induction false} ReachableExclusive(t: Table, ops: seq<Op>)
    requires Inv(t) && Exclusive(t) && DisciplinedRun(t, ops)
    ensures Inv(Run(t, ops)) && Exclusive(Run(t, ops))
    decreases ops
  {
    if ops != [] {
      StepKeepsInv(t, ops[0]);
      StepExclusive(t, ops[0]);
      ReachableExclusive(Step(t, ops[0]), ops[1..]);
    }
  }

  /** Two live mappings of an exclusive table never translate into the same host frame. */
  lemma TranslationsApart(t: Table, i: nat, g: U64, j: nat, h: U64)
    requires Exclusive(t) && i in t.mappings && j in t.mappings && i != j
    requires Contains(t.mappings[i], g) && Contains(t.mappings[j], h)
    ensures FirstFrame(Target(t.mappings[i], g)) != FirstFrame(Target(t.mappings[j], h))
  {
    TargetInside(t.mappings[i], g);
    TargetInside(t.mappings[j], h);
    assert Owns(t, i, FirstFrame(Target(t.mappings[i], g)));
    assert Owns(t, j, FirstFrame(Target(t.mappings[j], h)));
  }

  /** Two allocations of one range share its frames: `allocate` zeroes without asking. */
  lemma AllocateTwiceShares()
    ensures
      var op := DoAllocate("vm", 0, 0x1000, 0x1000, Perms(true, true, false));
      !Exclusive(Run(EmptyTable(None), [op, op]))
  {
    var op := DoAllocate("vm", 0, 0x1000, 0x1000, Perms(true, true, false));
    var t := EmptyTable(None);
    var t' := Step(t, op);
    StepExclusive(t, op);
    StepKeepsInv(t, op);
    AllocateFailsLikeEnforce(t, op.owner, op.gpa, op.hpa, op.len, op.perms);
    assert Owns(t', 0, 1) && Touches(0x1000, 0x1000, 1);
    StepExclusive(t', op);
    assert Run(t', [op]) == Step(t', op);
    assert [op, op][1..] == [op];
  }

  // ---- Unmapped frames stay out -----------------------------------------------

  /** Operations that zero frame `f`. */
  predicate Zeroes(op: Op, f: nat) {
    match op
    case DoZero(hpa, len) => Touches(hpa, len, f)
    case DoAllocate(_, _, hpa, len, _) => Touches(hpa, len, f)
    case _ => false
  }

  lemma UnmapPoisons(t: Table, id: nat, f: nat)
    requires Inv(t) && Owns(t, id, f)
    ensures StateOf(Unmap(t, id).0.frames, f) == Some(Poisoned)
  {
    PaintAt(t.frames, t.mappings[id].hpa, t.mappings[id].len, Poisoned, f);
  }

  lemma PoisonedBlocksAssign(frames: Frames, hpa: U64, len: U64, f: nat)
    requires StateOf(frames, f) == Some(Poisoned)
    ensures StateOf(AssignFrames(frames, hpa, len).0, f) == Some(Poisoned)
    ensures Touches(hpa, len, f) ==> AssignFrames(frames, hpa, len).1.Err?
  {
    if len > 0 {
      AssignErrorMeans(frames, FirstFrame(hpa), LastFrame(hpa, len) + 1);
      PaintAt(frames, hpa, len, Assigned, f);
    }
  }

  lemma PoisonedStep(t: Table, op: Op, f: nat)
    requires Inv(t) && StateOf(t.frames, f) == Some(Poisoned) && !Zeroes(op, f)
    ensures StateOf(Step(t, op).frames, f) == Some(Poisoned)
  {
    match op
    case DoMap(_, hpa, len, _) => PoisonedBlocksAssign(t.frames, hpa, len, f);
    case DoUnmap(id) =>
      if id in t.mappings {
        PaintAt(t.frames, t.mappings[id].hpa, t.mappings[id].len, Poisoned, f);
      }
    case DoAllocate(owner, gpa, hpa, len, perms) =>
      AllocateFailsLikeEnforce(t, owner, gpa, hpa, len, perms);
      PaintAt(t.frames, hpa, len, Assigned, f);
    case DoZero(hpa, len) => PaintAt(t.frames, hpa, len, Zeroed, f);
    case DoAssign(hpa, len) => PoisonedBlocksAssign(t.frames, hpa, len, f);
    case DoPoison(hpa, len) => PaintAt(t.frames, hpa, len, Poisoned, f);
    case DoReserve(_) =>
  }

  lemma {:induction false} PoisonedRun(t: Table, ops: seq<Op>, f: nat)
    requires Inv(t) && StateOf(t.frames, f) == Some(Poisoned)
    requires forall i | 0 <= i < |ops| :: !Zeroes(ops[i], f)
    ensures StateOf(Run(t, ops).frames, f) == Some(Poisoned)
    decreases ops
  {
    if ops != [] {
      PoisonedStep(t, ops[0], f);
      StepKeepsInv(t, ops[0]);
      PoisonedRun(Step(t, ops[0]), ops[1..], f);
    }
  }

  /** A frame of an unmapped mapping cannot be mapped again until it has been zeroed. */
  lemma UnmappedStaysOut(t: Table, id: nat, ops: seq<Op>, f: nat, gpa: U64, hpa: U64, len: U64, perms: Perms)
    requires Inv(t) && Owns(t, id, f) && Touches(hpa, len, f)
    requires forall i | 0 <= i < |ops| :: !Zeroes(ops[i], f)
    ensures Map(Run(Unmap(t, id).0, ops), gpa, hpa, len, perms).1.Err?
  {
    UnmapPoisons(t, id, f);
    StepKeepsInv(t, DoUnmap(id));
    PoisonedRun(Unmap(t, id).0, ops, f);
    PoisonedBlocksAssign(Run(Unmap(t, id).0, ops).frames, hpa, len, f);
  }

  // ---- The table as objects ---------------------------------------------------

  class InMemoryNpt {
    var nextId: nat
    var mappings: map<nat, Mapping>

    constructor ()
      ensures nextId == 0 && mappings == map[]
    {
      nextId := 0;
      mappings := map[];
    }

    method MapRange(gpa: U64, hpa: U64, len: U64, perms: Perms) returns (r: Result<nat, MmError>)
      modifies this
      ensures len == 0 ==> r == Err(ZeroLength) && nextId == old(nextId) && mappings == old(mappings)
      ensures len > 0 ==>
        && r == Ok(old(nextId)) && nextId == old(nextId) + 1
        && mappings == old(mappings)[old(nextId) := Mapping(old(nextId), gpa, hpa, len, perms)]
    {
      if len == 0 {
        return Err(ZeroLength);
      }
      var id := nextId;
      nextId := nextId + 1;
      mappings := mappings[id := Mapping(id, gpa, hpa, len, perms)];
      r := Ok(id);
    }

    method UnmapId(id: nat) returns (r: Result<(), MmError>)
      modifies this
      ensures nextId == old(nextId)
      ensures r == if id in old(mappings) then Ok(()) else Err(UnknownMapping(id))
      ensures mappings == old(mappings) - {id}
    {
      if id !in mappings {
        r := Err(UnknownMapping(id));
        assert mappings == mappings - {id};
      } else {
        mappings := mappings - {id};
        r := Ok(());
      }
    }

    /** Walks the mappings in id order. */
    method TranslateAddress(gpa: U64) returns (r: Option<U64>)
      ensures r == TranslateFrom(mappings, 0, nextId, gpa)
      ensures r.Some? ==>
        exists i | 0 <= i < nextId ::
          && i in mappings && Sends(mappings[i], gpa, r.value)
          && forall j | 0 <= j < i && j in mappings :: !Within(gpa, mappings[j].gpa, mappings[j].len)
    {
      for id := 0 to nextId
        invariant TranslateFrom(mappings, 0, nextId, gpa) == TranslateFrom(mappings, id, nextId, gpa)
        invariant forall j | 0 <= j < id && j in mappings ::
          !Within(gpa, mappings[j].gpa, mappings[j].len) || gpa == U64_MAX
      {
        if id in mappings {
          var start := mappings[id].gpa;
          var end := SaturatingAdd(start, mappings[id].len);
          if gpa >= start && gpa < end {
            return Some(SaturatingAdd(mappings[id].hpa, gpa - start));
          }
        }
      }
      r := None;
    }
  }

  class NestedPageTable {
    const npt: InMemoryNpt
    const zeroizer: PageZeroizer
    var reserved: Option<HostRange>
    var records: map<nat, Mapping>

    ghost function Value(): Table
      reads this, npt, zeroizer
    {
      Table(npt.nextId, npt.mappings, zeroizer.frames, reserved, records)
    }

    constructor (reserved: Option<HostRange>)
      ensures fresh(npt) && fresh(zeroizer)
      ensures Value() == EmptyTable(reserved)
    {
      npt := new InMemoryNpt();
      zeroizer := new PageZeroizer();
      this.reserved := reserved;
      records := map[];
    }

    method Reserve(range: HostRange)
      modifies this
      ensures Value() == Step(old(Value()), DoReserve(range))
    {
      reserved := Some(range);
    }

    method MapRange(gpa: U64, hpa: U64, len: U64, perms: Perms) returns (r: Result<nat, MmError>)
      modifies this, npt, zeroizer
      ensures (Value(), r) == Map(old(Value()), gpa, hpa, len, perms)
    {
      var e := Enforce(reserved, hpa, len, perms);
      if e.Some? {
        return Err(e.value);
      }
      var taken := zeroizer.Assign(hpa, len);
      if taken.Err? {
        return Err(taken.error);
      }
      r := npt.MapRange(gpa, hpa, len, perms);
      records := records[r.value := Mapping(r.value, gpa, hpa, len, perms)];
    }

    method UnmapId(id: nat) returns (r: Result<(), MmError>)
      modifies this, npt, zeroizer
      ensures (Value(), r) == Unmap(old(Value()), id)
    {
      r := npt.UnmapId(id);
      if r.Err? {
        assert npt.mappings == old(npt.mappings);
        return;
      }
      if id in records {
        var m := records[id];
        records := records - {id};
        zeroizer.Poison(m.hpa, m.len);
      } else {
        assert records == records - {id};
      }
    }

    method AllocateRange(owner: string, gpa: U64, hpa: U64, len: U64, perms: Perms)
      returns (r: Result<AllocationRecord, MmError>)
      modifies this, npt, zeroizer
      ensures (Value(), r) == Allocate(old(Value()), owner, gpa, hpa, len, perms)
    {
      var e := Enforce(reserved, hpa, len, perms);
      if e.Some? {
        return Err(e.value);
      }
      zeroizer.MarkZeroed(hpa, len);
      var mapped := MapRange(gpa, hpa, len, perms);
      if mapped.Err? {
        return Err(mapped.error);
      }
      r := Ok(AllocationRecord(gpa, hpa, len, mapped.value, owner, true));
    }
  }

  // ---- Quota ------------------------------------------------------------------

  class MemoryQuotaManager {
    var maxMb: U64
    var usedMb: U64

    constructor (maxMb: U64)
      ensures this.maxMb == maxMb && usedMb == 0
    {
      this.maxMb := maxMb;
      usedMb := 0;
    }

    function AvailableMb(): (r: U64)
      reads this
      ensures r == if usedMb <= maxMb then maxMb - usedMb else 0
    {
      if maxMb >= usedMb then maxMb - usedMb else 0
    }

    method TryReserve(mb: U64) returns (r: Result<(), MmError>)
      modifies this
      ensures maxMb == old(maxMb)
      ensures r.Ok? <==> mb == 0 || old(usedMb) + mb <= maxMb
      ensures usedMb == old(usedMb) + if r.Ok? then mb else 0
      ensures r.Err? ==> r.error == QuotaExceeded(mb, old(AvailableMb()))
    {
      var available := AvailableMb();
      if mb > available {
        return Err(QuotaExceeded(mb, available));
      }
      usedMb := usedMb + mb;
      r := Ok(());
    }

    method Release(mb: U64)
      modifies this
      ensures maxMb == old(maxMb)
      ensures usedMb == if mb <= old(usedMb) then old(usedMb) - mb else 0
    {
      usedMb := if usedMb >= mb then usedMb - mb else 0;
    }
  }
}
