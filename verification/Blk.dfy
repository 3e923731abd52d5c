// crates/hyper-virtio/src/blk.rs: a read-only block device that verifies what it serves.
//
// A backend is a value with two functions; replacing it models every change a host
// can make to it between two accesses.
module Blk {
  import opened Bytes
  import opened DeviceTypes
  import opened Words
  import opened Wrappers
  import Decimal

  type Sha = seq<Byte> -> string

  datatype Store = Store(sectors: U64, read: nat -> Result<seq<Byte>, DevError>)

  datatype Integrity = PerSector(hashes: seq<string>) | Image(hash: string)

  datatype VirtioError =
    | IntegrityFailure(what: string, expected: string, actual: string)
    | IntegrityConfig(expectedSectors: nat, provided: nat)
    | SectorOutOfRange(index: nat, capacity: nat)
    | Device(error: DevError)

  const CMD_LOAD: U64 := 1
  const REG_CAPACITY: U64 := 0x00
  const REG_SECTOR_SIZE: U64 := 0x08
  const REG_SECTOR_SEL: U64 := 0x10
  const REG_COMMAND: U64 := 0x18
  const REG_STATUS: U64 := 0x20
  const REG_DATA: U64 := 0x28
  const STATUS_OK: U64 := 0
  const STATUS_OUT_OF_RANGE: U64 := 1
  const STATUS_INTEGRITY: U64 := 2

  // ---- Reading and verifying --------------------------------------------------

  /** The first `n` sectors, or the error of the first that cannot be read. */
  function Sectors(store: Store, n: nat): Result<seq<Byte>, DevError> {
    if n == 0 then Ok([])
    else
      var before := Sectors(store, n - 1);
      if before.Err? then before
      else
        var s := store.read(n - 1);
        if s.Err? then Err(s.error) else Ok(before.value + s.value)
  }

  function CheckImage(sha: Sha, store: Store, expected: string): Option<VirtioError> {
    var all := Sectors(store, store.sectors);
    if all.Err? then Some(Device(all.error))
    else if sha(all.value) != expected then Some(IntegrityFailure("image", expected, sha(all.value)))
    else None
  }

  function CheckSector(sha: Sha, store: Store, hashes: seq<string>, idx: nat, bytes: seq<Byte>): Option<VirtioError> {
    if idx >= |hashes| then Some(IntegrityConfig(store.sectors, |hashes|))
    else if sha(bytes) != hashes[idx] then
      Some(IntegrityFailure("sector " + Decimal.Print(idx), hashes[idx], sha(bytes)))
    else None
  }

  function ReadSector(sha: Sha, store: Store, integrity: Integrity, idx: nat): Result<seq<Byte>, VirtioError> {
    if idx >= store.sectors then Err(SectorOutOfRange(idx, store.sectors))
    else
      var bytes := store.read(idx);
      if bytes.Err? then Err(Device(bytes.error))
      else
        var failed := match integrity
          case PerSector(hashes) => CheckSector(sha, store, hashes, idx, bytes.value)
          case Image(expected) => CheckImage(sha, store, expected);
        if failed.Some? then Err(failed.value) else Ok(bytes.value)
  }

  /** `bytes` is what the backend holds at `idx`, and the expected digest vouches for it. */
  predicate Vouched(sha: Sha, store: Store, integrity: Integrity, idx: nat, bytes: seq<Byte>) {
    && idx < store.sectors
    && store.read(idx) == Ok(bytes)
    && match integrity
       case PerSector(hashes) => idx < |hashes| && hashes[idx] == sha(bytes)
       case Image(expected) =>
         Sectors(store, store.sectors).Ok? && sha(Sectors(store, store.sectors).value) == expected
  }

  /** A sector is served exactly when its digest, or the whole image's, matches. */
  lemma ReadSectorVouched(sha: Sha, store: Store, integrity: Integrity, idx: nat, bytes: seq<Byte>)
    ensures ReadSector(sha, store, integrity, idx) == Ok(bytes) <==> Vouched(sha, store, integrity, idx, bytes)
  {
  }

  /** What a refused read reports: first the range, then the backend, then what is wrong with the digest. */
  lemma ReadSectorErrors(sha: Sha, store: Store, integrity: Integrity, idx: nat)
    requires ReadSector(sha, store, integrity, idx).Err?
    ensures
      var e := ReadSector(sha, store, integrity, idx).error;
      && (idx >= store.sectors ==> e == SectorOutOfRange(idx, store.sectors))
      && (idx < store.sectors && store.read(idx).Err? ==> e == Device(store.read(idx).error))
      && (idx < store.sectors && store.read(idx).Ok? ==>
            if integrity.PerSector? then SectorFailure(sha, store, integrity.hashes, idx, store.read(idx).value, e)
            else ImageFailure(sha, store, integrity.hash, e))
  {
  }

  /** A digest is missing, or the error shows the two that differ. */
  predicate SectorFailure(
      sha: Sha, store: Store, hashes: seq<string>, idx: nat, bytes: seq<Byte>, e: VirtioError)
  {
    if idx >= |hashes| then e == IntegrityConfig(store.sectors, |hashes|)
    else
      && e.IntegrityFailure? && e.what == "sector " + Decimal.Print(idx)
      && e.expected == hashes[idx] && e.actual == sha(bytes) && e.actual != e.expected
  }

  /** The image cannot be read, or the error shows the two digests that differ. */
  predicate ImageFailure(sha: Sha, store: Store, expected: string, e: VirtioError) {
    var all := Sectors(store, store.sectors);
    if all.Err? then e == Device(all.error)
    else
      && e.IntegrityFailure? && e.what == "image"
      && e.expected == expected && e.actual == sha(all.value) && e.actual != e.expected
  }

  function FirstBad(sha: Sha, store: Store, integrity: Integrity, i: nat): Result<(), VirtioError>
    decreases store.sectors - i
  {
    if i >= store.sectors then Ok(())
    else
      var r := ReadSector(sha, store, integrity, i);
      if r.Err? then Err(r.error) else FirstBad(sha, store, integrity, i + 1)
  }

  function Verify(sha: Sha, store: Store, integrity: Integrity): Result<(), VirtioError> {
    match integrity
    case Image(expected) =>
      var failed := CheckImage(sha, store, expected);
      if failed.Some? then Err(failed.value) else Ok(())
    case PerSector(hashes) =>
      if |hashes| != store.sectors then Err(IntegrityConfig(store.sectors, |hashes|))
      else FirstBad(sha, store, integrity, 0)
  }

  lemma {:induction false} FirstBadMeans(sha: Sha, store: Store, integrity: Integrity, i: nat)
    ensures FirstBad(sha, store, integrity, i).Ok?
       <==> forall k | i <= k < store.sectors :: ReadSector(sha, store, integrity, k).Ok?
    ensures FirstBad(sha, store, integrity, i).Err? ==>
      exists k | i <= k < store.sectors ::
        && ReadSector(sha, store, integrity, k).Err?
        && FirstBad(sha, store, integrity, i).error == ReadSector(sha, store, integrity, k).error
        && forall j | i <= j < k :: ReadSector(sha, store, integrity, j).Ok?
    decreases store.sectors - i
  {
    hide ReadSector;
    if i < store.sectors {
      FirstBadMeans(sha, store, integrity, i + 1);
    }
  }

  /** A per-sector check passes exactly when every sector has its digest, in order and none to spare. */
  lemma VerifyPerSector(sha: Sha, store: Store, hashes: seq<string>)
    ensures Verify(sha, store, PerSector(hashes)).Ok? <==>
      && |hashes| == store.sectors
      && forall k | 0 <= k < |hashes| :: store.read(k).Ok? && sha(store.read(k).value) == hashes[k]
  {
    FirstBadMeans(sha, store, PerSector(hashes), 0);
    if |hashes| == store.sectors {
      forall k | 0 <= k < |hashes|
        ensures ReadSector(sha, store, PerSector(hashes), k).Ok?
           <==> store.read(k).Ok? && sha(store.read(k).value) == hashes[k]
      {
      }
    }
  }

  // ---- The in-memory backend --------------------------------------------------

  /** `data` filled up with zeros to a whole number of sectors. */
  function Padded(data: seq<Byte>, size: nat): seq<Byte>
    requires size > 0
  {
    var rem := |data| % size;
    if rem != 0 then data + Zeros(size - rem) else data
  }

  lemma PaddedWhole(data: seq<Byte>, size: nat) returns (n: nat)
    requires size > 0
    ensures |Padded(data, size)| == size * n && data <= Padded(data, size)
    ensures |Padded(data, size)| < |data| + size
  {
    var q, r := Divide(|data|, size);
    n := if r == 0 then q else q + 1;
  }

  /** The data itself comes first, and everything after it is zero. */
  lemma PaddedAt(data: seq<Byte>, size: nat, i: nat)
    requires size > 0 && i < |Padded(data, size)|
    ensures Padded(data, size)[i] == if i < |data| then data[i] else 0
  {
  }

  /** `checked_mul`, `checked_add` and the bounds check. */
  function MemoryRead(data: seq<Byte>, size: nat, idx: nat): Result<seq<Byte>, DevError> {
    if idx * size > U64_MAX || idx * size + size > U64_MAX || idx * size + size > |data| then Err(OffsetOutOfRange(idx))
    else Ok(data[idx * size..idx * size + size])
  }

  function Memory(data: seq<Byte>, size: nat): Store
    requires 0 < size && |data| <= U64_MAX
  {
    SectorsFit(|data|, size);
    Store(|data| / size, (idx: nat) => MemoryRead(data, size, idx))
  }

  lemma SectorsFit(len: nat, size: nat)
    requires 0 < size
    ensures 0 <= len / size <= len
  {
    var q, r := Divide(len, size);
    if q > 0 {
      NextMultiple(q, 0, size);
    }
  }

  function Sector(data: seq<Byte>, size: nat, idx: nat): seq<Byte>
    requires idx * size + size <= |data|
  {
    data[idx * size..idx * size + size]
  }

  /** A whole image of `n` sectors has `n` readable ones, and they are its slices. */
  lemma MemorySectors(data: seq<Byte>, size: nat, n: nat, idx: nat)
    requires 0 < size && |data| == size * n <= U64_MAX
    ensures Memory(data, size).sectors == n
    ensures idx < n ==> idx * size + size <= |data| && Memory(data, size).read(idx) == Ok(Sector(data, size, idx))
    ensures idx >= n ==> Memory(data, size).read(idx) == Err(OffsetOutOfRange(idx))
  {
    DivisionUnique(|data|, size, n, 0);
    if idx < n {
      NextMultiple(size, idx, n);
    } else if n < idx {
      NextMultiple(size, n, idx);
    }
  }

  lemma NextSlice(data: seq<Byte>, size: nat, k: nat)
    requires k * size + size <= |data|
    ensures (k + 1) * size == k * size + size
    ensures data[..k * size] + Sector(data, size, k) == data[..(k + 1) * size]
  {
  }

  /** Reading the sectors in order gives the image back. */
  lemma {:induction false} SectorsConcatenate(data: seq<Byte>, size: nat, n: nat, k: nat)
    requires 0 < size && |data| == size * n <= U64_MAX && k <= n
    ensures k * size <= |data| && Sectors(Memory(data, size), k) == Ok(data[..k * size])
    decreases k
  {
    hide Memory;
    hide Sector;
    if k > 0 {
      SectorsConcatenate(data, size, n, k - 1);
      MemorySectors(data, size, n, k - 1);
      NextSlice(data, size, k - 1);
    }
  }

  lemma WholeImage(data: seq<Byte>, size: nat, n: nat)
    requires 0 < size && |data| == size * n <= U64_MAX
    ensures Memory(data, size).sectors == n && Sectors(Memory(data, size), n) == Ok(data)
  {
    MemorySectors(data, size, n, n);
    SectorsConcatenate(data, size, n, n);
    assert data[..n * size] == data;
  }

  /** What a padded image reads back as: its own bytes, then the zeros. */
  lemma PaddedReadsBack(data: seq<Byte>, size: nat)
    requires 0 < size && |Padded(data, size)| <= U64_MAX
    ensures
      var store := Memory(Padded(data, size), size);
      Sectors(store, store.sectors) == Ok(Padded(data, size)) && data <= Padded(data, size)
  {
    var n := PaddedWhole(data, size);
    WholeImage(Padded(data, size), size, n);
  }

  // ---- A digest pins the image --------------------------------------------------

  /** These two byte strings collide. */
  predicate Collide(sha: Sha, x: seq<Byte>, y: seq<Byte>) {
    x != y && sha(x) == sha(y)
  }

  /** Digests of the sectors of `image`. */
  function Digests(sha: Sha, image: seq<Byte>, size: nat, n: nat): (d: seq<string>)
    requires |image| == size * n
    ensures |d| == n
  {
    seq(n, k requires 0 <= k < n => SectorDigest(sha, image, size, n, k))
  }

  function SectorDigest(sha: Sha, image: seq<Byte>, size: nat, n: nat, k: nat): string
    requires |image| == size * n && k < n
  {
    NextMultiple(size, k, n);
    sha(Sector(image, size, k))
  }

  /** With the digest of `image` expected, `verify` accepts exactly `image` and data that collides with it. */
  lemma VerifyPinsImage(sha: Sha, data: seq<Byte>, image: seq<Byte>, size: nat, n: nat)
    requires 0 < size && |data| == size * n <= U64_MAX
    ensures Verify(sha, Memory(data, size), Image(sha(image))).Ok? <==> data == image || Collide(sha, data, image)
  {
    WholeImage(data, size, n);
  }

  predicate SectorsDiffer(data: seq<Byte>, image: seq<Byte>, size: nat, k: nat) {
    k * size + size <= |data| && k * size + size <= |image| && Sector(data, size, k) != Sector(image, size, k)
  }

  /** Images of one size that are not equal differ in some sector. */
  lemma DifferentSector(data: seq<Byte>, image: seq<Byte>, size: nat, n: nat) returns (k: nat)
    requires 0 < size && |data| == |image| == size * n
    ensures data == image || (k < n && SectorsDiffer(data, image, size, k))
  {
    k := 0;
    if data != image {
      var i :| 0 <= i < |data| && data[i] != image[i];
      var r;
      k, r := Divide(i, size);
      QuotientBelow(i, size, n, k, r);
      SectorAt(data, size, k, r);
      SectorAt(image, size, k, r);
    }
  }

  lemma QuotientBelow(i: nat, size: nat, n: nat, k: nat, r: nat)
    requires i == size * k + r && r < size && i < size * n
    ensures k < n && k * size + size <= size * n
  {
    if n < k {
      NextMultiple(size, n, k);
    }
    if k < n {
      NextMultiple(size, k, n);
    }
  }

  lemma SectorAt(data: seq<Byte>, size: nat, k: nat, r: nat)
    requires k * size + size <= |data| && r < size
    ensures Sector(data, size, k)[r] == data[size * k + r]
  {
  }

  predicate SectorMatches(sha: Sha, data: seq<Byte>, image: seq<Byte>, size: nat, k: nat) {
    && k * size + size <= |data| && k * size + size <= |image|
    && sha(Sector(data, size, k)) == sha(Sector(image, size, k))
  }

  /**
   * With one digest per sector expected, `verify` accepts exactly the data whose every sector has
   * the image's digest.
   */
  lemma VerifySectorsExactly(sha: Sha, data: seq<Byte>, image: seq<Byte>, size: nat, n: nat)
    requires 0 < size && |data| == |image| == size * n <= U64_MAX
    ensures Verify(sha, Memory(data, size), PerSector(Digests(sha, image, size, n))).Ok?
       <==> forall k | 0 <= k < n :: SectorMatches(sha, data, image, size, k)
  {
    hide Verify;
    hide Memory;
    hide Sector;
    var store, hashes := Memory(data, size), Digests(sha, image, size, n);
    VerifyPerSector(sha, store, hashes);
    MemorySectors(data, size, n, n);
    forall k | 0 <= k < n
      ensures (store.read(k).Ok? && sha(store.read(k).value) == hashes[k]) == SectorMatches(sha, data, image, size, k)
    {
      MemorySectors(data, size, n, k);
      assert hashes[k] == SectorDigest(sha, image, size, n, k);
    }
  }

  /** If what it accepts is not the image, sector `k` of the two collides. */
  lemma VerifyPinsSectors(sha: Sha, data: seq<Byte>, image: seq<Byte>, size: nat, n: nat) returns (k: nat)
    requires 0 < size && |data| == |image| == size * n <= U64_MAX
    requires Verify(sha, Memory(data, size), PerSector(Digests(sha, image, size, n))).Ok?
    ensures data == image
      || (k < n && SectorsDiffer(data, image, size, k) && Collide(sha, Sector(data, size, k), Sector(image, size, k)))
  {
    hide Verify;
    hide Memory;
    hide Sector;
    VerifySectorsExactly(sha, data, image, size, n);
    k := DifferentSector(data, image, size, n);
    assert k < n ==> SectorMatches(sha, data, image, size, k);
  }

  // ---- The register machine ---------------------------------------------------

  datatype Dev = Dev(selected: U64, status: U64, buffer: seq<Byte>, cursor: nat)

  const POWER_ON: Dev := Dev(0, STATUS_OK, [], 0)

  function SectorSize(store: Store): U64 {
    if store.sectors == 0 then 0
    else
      var s := store.read(0);
      if s.Ok? && |s.value| <= U64_MAX then |s.value| else 0
  }

  function Load(sha: Sha, store: Store, integrity: Integrity, dev: Dev): Dev {
    match ReadSector(sha, store, integrity, dev.selected)
    case Ok(bytes) => Dev(dev.selected, STATUS_OK, bytes, 0)
    case Err(SectorOutOfRange(_, _)) => Dev(dev.selected, STATUS_OUT_OF_RANGE, [], 0)
    case Err(_) => Dev(dev.selected, STATUS_INTEGRITY, [], 0)
  }

  /**
   * A load keeps the selected sector and rewinds; its status is 1 for a sector out of range, 0 with the vouched
   * sector in the buffer, and 2 with nothing in the buffer for every other failure.
   */
  lemma LoadMeans(sha: Sha, store: Store, integrity: Integrity, dev: Dev)
    ensures
      var after := Load(sha, store, integrity, dev);
      && after.selected == dev.selected && after.cursor == 0
      && (after.status == 1 <==> dev.selected >= store.sectors)
      && (after.status == 0 <==> ReadSector(sha, store, integrity, dev.selected).Ok?)
      && (after.status == 0 ==> Vouched(sha, store, integrity, dev.selected, after.buffer))
      && (after.status != 0 ==> after.buffer == [])
      && after.status in {0, 1, 2}
  {
    hide Sectors;
  }

  /** A whole in-memory image reports its sector size, and an empty one reports 0. */
  lemma MemorySectorSize(data: seq<Byte>, size: nat, n: nat)
    requires 0 < size && |data| == size * n <= U64_MAX
    ensures SectorSize(Memory(data, size)) == if n == 0 then 0 else size
  {
    hide Memory;
    MemorySectors(data, size, n, 0);
  }

  function DataRead(dev: Dev): (Dev, Result<U64, DevError>) {
    if dev.status != STATUS_OK || dev.cursor >= |dev.buffer| then (dev, Err(OffsetOutOfRange(REG_DATA)))
    else (dev.(cursor := dev.cursor + 1), Ok(dev.buffer[dev.cursor]))
  }

  function MmioRead(store: Store, dev: Dev, offset: U64, width: Width): (Dev, Result<U64, DevError>) {
    if offset == REG_CAPACITY then (dev, Ok(And(store.sectors, width.Mask())))
    else if offset == REG_SECTOR_SIZE then (dev, Ok(And(SectorSize(store), width.Mask())))
    else if offset == REG_STATUS then (dev, Ok(And(dev.status, width.Mask())))
    else if offset == REG_DATA then
      var (dev', r) := DataRead(dev);
      (dev', if r.Err? then r else Ok(And(r.value, width.Mask())))
    else (dev, Err(OffsetOutOfRange(offset)))
  }

  function MmioWrite(sha: Sha, store: Store, integrity: Integrity, dev: Dev, offset: U64, value: U64)
    : (Dev, Result<(), DevError>)
  {
    if offset == REG_SECTOR_SEL then (dev.(selected := value), Ok(()))
    else if offset == REG_COMMAND && value == CMD_LOAD then (Load(sha, store, integrity, dev), Ok(()))
    else (dev, Err(OffsetOutOfRange(offset)))
  }

  /** The registers that are read: capacity, sector size and status, each cut to the access width. */
  lemma ReadRegisters(store: Store, dev: Dev, offset: U64, width: Width)
    ensures
      var (after, r) := MmioRead(store, dev, offset, width);
      && (offset == 0x00 ==> after == dev && r == Ok(store.sectors % (width.Mask() + 1)))
      && (offset == 0x08 ==> after == dev && r == Ok(SectorSize(store) % (width.Mask() + 1)))
      && (offset == 0x20 ==> after == dev && r == Ok(dev.status % (width.Mask() + 1)))
      && (offset !in {0x00, 0x08, 0x20, 0x28} ==> after == dev && r == Err(OffsetOutOfRange(offset)))
  {
    hide And;
    MaskKeepsLowBytes(store.sectors, width);
    MaskKeepsLowBytes(SectorSize(store), width);
    MaskKeepsLowBytes(dev.status, width);
  }

  /** The registers that are written: the selector, and the command 1, which loads; every other write is refused. */
  lemma WriteRegisters(sha: Sha, store: Store, integrity: Integrity, dev: Dev, offset: U64, value: U64)
    ensures
      var (after, r) := MmioWrite(sha, store, integrity, dev, offset, value);
      && (offset == 0x10 ==> after == dev.(selected := value) && r.Ok?)
      && (offset == 0x18 && value == 1 ==> after == Load(sha, store, integrity, dev) && r.Ok?)
      && (offset != 0x10 && (offset != 0x18 || value != 1) ==> after == dev && r == Err(OffsetOutOfRange(offset)))
  {
    hide Load;
  }

  /** Every access width passes a byte through unchanged. */
  lemma MaskKeepsByte(b: Byte, width: Width)
    ensures And(b, width.Mask()) == b
  {
    MaskKeepsLowBytes(b, width);
    assert width.Mask() >= 255;
    RemainderOfSmall(b, width.Mask() + 1);
  }

  // ---- Runs -------------------------------------------------------------------

  datatype Event =
    | DoRead(offset: U64, width: Width)
    | DoWrite(offset: U64, value: U64)
    | DoReset
    | Replace(store: Store)

  datatype World = World(store: Store, dev: Dev)

  function Step(sha: Sha, integrity: Integrity, w: World, e: Event): World {
    match e
    case DoRead(offset, width) => w.(dev := MmioRead(w.store, w.dev, offset, width).0)
    case DoWrite(offset, value) => w.(dev := MmioWrite(sha, w.store, integrity, w.dev, offset, value).0)
    case DoReset => w.(dev := POWER_ON)
    case Replace(store) => w.(store := store)
  }

  /** The world after the first `k` events. */
  function At(sha: Sha, integrity: Integrity, store: Store, events: seq<Event>, k: nat): World
    requires k <= |events|
  {
    if k == 0 then World(store, POWER_ON)
    else Step(sha, integrity, At(sha, integrity, store, events, k - 1), events[k - 1])
  }

  predicate IsLoad(e: Event) {
    e == DoWrite(REG_COMMAND, CMD_LOAD)
  }

  /** Neither a load nor a reset. */
  predicate Keeps(e: Event) {
    !IsLoad(e) && !e.DoReset?
  }

  /** The result of reading the data register as event `k`. */
  function DataAt(sha: Sha, integrity: Integrity, store: Store, events: seq<Event>, k: nat): Result<U64, DevError>
    requires k < |events| && events[k].DoRead? && events[k].offset == REG_DATA
  {
    var w := At(sha, integrity, store, events, k);
    MmioRead(w.store, w.dev, REG_DATA, events[k].width).1
  }

  predicate Served(sha: Sha, integrity: Integrity, store: Store, events: seq<Event>, k: nat)
    requires k < |events|
  {
    events[k].DoRead? && events[k].offset == REG_DATA && DataAt(sha, integrity, store, events, k).Ok?
  }

  /** How many bytes events `j..k` read from the data register. */
  function BytesServed(sha: Sha, integrity: Integrity, store: Store, events: seq<Event>, j: nat, k: nat): nat
    requires k <= |events|
  {
    if k <= j then 0
    else
      var last := if Served(sha, integrity, store, events, k - 1) then 1 else 0;
      BytesServed(sha, integrity, store, events, j, k - 1) + last
  }

  /** Event `j` is the last load or reset before `k`, and it loaded `bytes`. */
  predicate LastLoaded(
      sha: Sha, integrity: Integrity, store: Store, events: seq<Event>, j: nat, k: nat, bytes: seq<Byte>)
    requires k <= |events|
  {
    && j < k && IsLoad(events[j])
    && (forall i | j < i < k :: Keeps(events[i]))
    && var w := At(sha, integrity, store, events, j);
       ReadSector(sha, w.store, integrity, w.dev.selected) == Ok(bytes)
  }

  lemma OtherEventsKeepBuffer(sha: Sha, integrity: Integrity, w: World, e: Event)
    ensures Keeps(e) ==> Step(sha, integrity, w, e).dev.buffer == w.dev.buffer
    ensures e.DoReset? ==> Step(sha, integrity, w, e).dev.buffer == []
    ensures IsLoad(e) && Step(sha, integrity, w, e).dev.buffer != [] ==>
      ReadSector(sha, w.store, integrity, w.dev.selected) == Ok(Step(sha, integrity, w, e).dev.buffer)
  {
    hide ReadSector;
    hide And;
  }

  lemma LoadFills(sha: Sha, integrity: Integrity, w: World, e: Event, bytes: seq<Byte>)
    requires IsLoad(e) && ReadSector(sha, w.store, integrity, w.dev.selected) == Ok(bytes)
    ensures Step(sha, integrity, w, e).dev == Dev(w.dev.selected, STATUS_OK, bytes, 0)
  {
    hide ReadSector;
  }

  /** Between loads and resets only the cursor moves, by one for each byte served. */
  lemma KeepsBuffer(sha: Sha, integrity: Integrity, w: World, e: Event)
    requires Keeps(e) && w.dev.status == STATUS_OK && w.dev.cursor <= |w.dev.buffer|
    ensures
      var dev := Step(sha, integrity, w, e).dev;
      var served := e.DoRead? && e.offset == REG_DATA && MmioRead(w.store, w.dev, REG_DATA, e.width).1.Ok?;
      && dev.status == STATUS_OK && dev.buffer == w.dev.buffer
      && dev.cursor == w.dev.cursor + (if served then 1 else 0) <= |dev.buffer|
  {
    hide And;
  }

  /** After a successful load the device holds what it loaded, and its cursor counts the bytes read since. */
  lemma {:induction false} BufferIsLastLoad(
      sha: Sha, integrity: Integrity, store: Store, events: seq<Event>, j: nat, k: nat, bytes: seq<Byte>)
    requires k <= |events| && LastLoaded(sha, integrity, store, events, j, k, bytes)
    ensures
      var dev := At(sha, integrity, store, events, k).dev;
      && dev.status == STATUS_OK && dev.buffer == bytes
      && dev.cursor == BytesServed(sha, integrity, store, events, j + 1, k) <= |bytes|
    decreases k
  {
    hide Step;
    hide MmioRead;
    hide ReadSector;
    LoadFills(sha, integrity, At(sha, integrity, store, events, j), events[j], bytes);
    if k > j + 1 {
      BufferIsLastLoad(sha, integrity, store, events, j, k - 1, bytes);
      KeepsBuffer(sha, integrity, At(sha, integrity, store, events, k - 1), events[k - 1]);
    }
  }

  /** Whatever is in the buffer was put there by the last load. */
  lemma {:induction false} BufferHasSource(
      sha: Sha, integrity: Integrity, store: Store, events: seq<Event>, k: nat) returns (j: nat)
    requires k <= |events| && At(sha, integrity, store, events, k).dev.buffer != []
    ensures LastLoaded(sha, integrity, store, events, j, k, At(sha, integrity, store, events, k).dev.buffer)
    decreases k
  {
    hide Step;
    hide ReadSector;
    OtherEventsKeepBuffer(sha, integrity, At(sha, integrity, store, events, k - 1), events[k - 1]);
    if IsLoad(events[k - 1]) {
      j := k - 1;
    } else {
      j := BufferHasSource(sha, integrity, store, events, k - 1);
    }
  }

  /**
   * In every run, whatever is done to the backend, a byte read from the data register is the next
   * unread byte of the last load, and the digest vouched for that load when it was made.
   */
  lemma ServedByteIsVouched(sha: Sha, integrity: Integrity, store: Store, events: seq<Event>, k: nat)
    returns (j: nat, bytes: seq<Byte>)
    requires k < |events| && Served(sha, integrity, store, events, k)
    ensures LastLoaded(sha, integrity, store, events, j, k, bytes)
    ensures
      var w := At(sha, integrity, store, events, j);
      Vouched(sha, w.store, integrity, w.dev.selected, bytes)
    ensures
      var n := BytesServed(sha, integrity, store, events, j + 1, k);
      n < |bytes| && DataAt(sha, integrity, store, events, k) == Ok(bytes[n])
  {
    var dev := At(sha, integrity, store, events, k).dev;
    bytes := dev.buffer;
    j := BufferHasSource(sha, integrity, store, events, k);
    BufferIsLastLoad(sha, integrity, store, events, j, k, bytes);
    ReadSectorVouched(sha, At(sha, integrity, store, events, j).store, integrity,
      At(sha, integrity, store, events, j).dev.selected, bytes);
    MaskKeepsByte(dev.buffer[dev.cursor], events[k].width);
  }

  /** Byte `i` of sector `idx`. */
  predicate ByteOf(image: seq<Byte>, size: nat, idx: nat, i: nat, b: U64) {
    i < size && idx * size + i < |image| && image[idx * size + i] == b
  }

  lemma VouchedByDigests(
      sha: Sha, image: seq<Byte>, size: nat, n: nat, store: Store, idx: nat, bytes: seq<Byte>, i: nat)
    requires |image| == size * n && i < |bytes|
    requires Vouched(sha, store, PerSector(Digests(sha, image, size, n)), idx, bytes)
    ensures idx * size + size <= |image|
    ensures Collide(sha, bytes, Sector(image, size, idx)) || ByteOf(image, size, idx, i, bytes[i])
  {
    assert sha(bytes) == SectorDigest(sha, image, size, n, idx);
    NextMultiple(size, idx, n);
    if bytes == Sector(image, size, idx) {
      assert bytes[i] == image[idx * size + i];
    }
  }

  /**
   * With the sector digests of a trusted image, every byte served is that image's at the selected
   * sector, or the bytes loaded collide with that sector.
   */
  lemma ServedByteIsTrusted(
      sha: Sha, integrity: Integrity, image: seq<Byte>, size: nat, n: nat, store: Store, events: seq<Event>, k: nat)
    returns (j: nat, bytes: seq<Byte>)
    requires |image| == size * n && integrity == PerSector(Digests(sha, image, size, n))
    requires k < |events| && Served(sha, integrity, store, events, k)
    ensures LastLoaded(sha, integrity, store, events, j, k, bytes)
    ensures
      var idx := At(sha, integrity, store, events, j).dev.selected;
      && idx * size + size <= |image|
      && (|| Collide(sha, bytes, Sector(image, size, idx))
          || ByteOf(image, size, idx, BytesServed(sha, integrity, store, events, j + 1, k),
               DataAt(sha, integrity, store, events, k).value))
  {
    j, bytes := ServedByteIsVouched(sha, integrity, store, events, k);
    var w := At(sha, integrity, store, events, j);
    VouchedByDigests(sha, image, size, n, w.store, w.dev.selected, bytes,
      BytesServed(sha, integrity, store, events, j + 1, k));
  }

  // ---- Trust in one digest for the whole image ----------------------------------

  /** Every sector of the backend has the same length. */
  predicate EvenSectors(store: Store, size: nat) {
    forall k | 0 <= k < store.sectors :: store.read(k).Ok? && |store.read(k).value| == size
  }

  predicate HoldsSector(store: Store, image: seq<Byte>, size: nat, k: nat) {
    k * size + size <= |image| && store.read(k) == Ok(Sector(image, size, k))
  }

  lemma {:induction false} PrefixOfSectors(store: Store, k: nat, n: nat)
    requires k <= n && Sectors(store, n).Ok?
    ensures Sectors(store, k).Ok? && Sectors(store, k).value <= Sectors(store, n).value
    decreases n
  {
    if k < n {
      PrefixOfSectors(store, k, n - 1);
    }
  }

  lemma {:induction false} EvenLength(store: Store, size: nat, k: nat)
    requires EvenSectors(store, size) && k <= store.sectors && Sectors(store, k).Ok?
    ensures |Sectors(store, k).value| == k * size
    decreases k
  {
    if k > 0 {
      EvenLength(store, size, k - 1);
      assert (k - 1) * size + size == k * size;
    }
  }

  lemma EvenHolds(store: Store, image: seq<Byte>, size: nat, k: nat)
    requires Sectors(store, store.sectors) == Ok(image) && EvenSectors(store, size) && k < store.sectors
    ensures HoldsSector(store, image, size, k)
  {
    PrefixOfSectors(store, k, store.sectors);
    PrefixOfSectors(store, k + 1, store.sectors);
    EvenLength(store, size, k);
    var before, here := Sectors(store, k).value, store.read(k).value;
    assert Sectors(store, k + 1).value == before + here;
    assert image[..|before| + |here|] == before + here;
    assert here == image[|before|..|before| + |here|];
  }

  lemma HoldsLength(store: Store, image: seq<Byte>, size: nat, k: nat)
    requires HoldsSector(store, image, size, k)
    ensures store.read(k).Ok? && |store.read(k).value| == size
  {
  }

  /** A backend that holds the bytes of an image holds its sectors exactly when it splits them evenly. */
  lemma HoldsSectorsExactly(store: Store, image: seq<Byte>, size: nat)
    requires Sectors(store, store.sectors) == Ok(image)
    ensures (forall k | 0 <= k < store.sectors :: HoldsSector(store, image, size, k)) <==> EvenSectors(store, size)
  {
    hide Sectors;
    hide HoldsSector;
    if EvenSectors(store, size) {
      forall k | 0 <= k < store.sectors
        ensures HoldsSector(store, image, size, k)
      {
        EvenHolds(store, image, size, k);
      }
    }
    if forall k | 0 <= k < store.sectors :: HoldsSector(store, image, size, k) {
      forall k | 0 <= k < store.sectors
        ensures store.read(k).Ok? && |store.read(k).value| == size
      {
        HoldsLength(store, image, size, k);
      }
    }
  }

  lemma VouchedByImage(
      sha: Sha, image: seq<Byte>, size: nat, store: Store, idx: nat, bytes: seq<Byte>, i: nat)
    returns (held: seq<Byte>)
    requires Vouched(sha, store, Image(sha(image)), idx, bytes) && i < |bytes|
    ensures Sectors(store, store.sectors) == Ok(held)
    ensures Collide(sha, held, image) || (EvenSectors(store, size) ==> ByteOf(image, size, idx, i, bytes[i]))
  {
    held := Sectors(store, store.sectors).value;
    if held == image && EvenSectors(store, size) {
      EvenHolds(store, image, size, idx);
      SectorByte(image, size, idx, i);
    }
  }

  lemma SectorByte(image: seq<Byte>, size: nat, k: nat, i: nat)
    requires k * size + size <= |image| && i < size
    ensures Sector(image, size, k)[i] == image[k * size + i]
  {
  }

  /**
   * With one digest for a trusted image, every byte served by an evenly split backend is that image's
   * at the selected sector, or the bytes the backend held collide with the image.
   */
  lemma ServedImageByteIsTrusted(
      sha: Sha, integrity: Integrity, image: seq<Byte>, size: nat, store: Store, events: seq<Event>, k: nat)
    returns (j: nat, bytes: seq<Byte>, held: seq<Byte>)
    requires integrity == Image(sha(image))
    requires k < |events| && Served(sha, integrity, store, events, k)
    ensures LastLoaded(sha, integrity, store, events, j, k, bytes)
    ensures
      var w := At(sha, integrity, store, events, j);
      && Sectors(w.store, w.store.sectors) == Ok(held)
      && (|| Collide(sha, held, image)
          || (EvenSectors(w.store, size) ==>
                ByteOf(image, size, w.dev.selected, BytesServed(sha, integrity, store, events, j + 1, k),
                  DataAt(sha, integrity, store, events, k).value)))
  {
    j, bytes := ServedByteIsVouched(sha, integrity, store, events, k);
    var w := At(sha, integrity, store, events, j);
    held := VouchedByImage(sha, image, size, w.store, w.dev.selected, bytes,
      BytesServed(sha, integrity, store, events, j + 1, k));
  }

  /** The image split unevenly: nothing in sector 0, everything in sector 1. */
  function Resplit(k: nat): Result<seq<Byte>, DevError> {
    Ok(if k == 1 then [1, 2] else [])
  }

  /** An uneven split of the same bytes passes the image digest and serves the wrong sector. */
  lemma ResplitServesWrong(sha: Sha)
    ensures ReadSector(sha, Store(2, Resplit), Image(sha([1, 2])), 1) == Ok([1, 2])
    ensures Sector([1, 2], 1, 1) == [2]
  {
    var store := Store(2, Resplit);
    assert Sectors(store, 1) == Ok([] + []);
    assert Sectors(store, 2) == Ok([] + [] + [1, 2]);
    assert [] + [] + [1, 2] == [1, 2];
  }

  /** And each byte comes out once: after a load, a read succeeds until all its bytes have been read. */
  lemma LoadIsServedInOrder(
      sha: Sha, integrity: Integrity, store: Store, events: seq<Event>, j: nat, k: nat, bytes: seq<Byte>)
    requires k < |events| && events[k].DoRead? && events[k].offset == REG_DATA
    requires LastLoaded(sha, integrity, store, events, j, k, bytes)
    ensures
      var n := BytesServed(sha, integrity, store, events, j + 1, k);
      DataAt(sha, integrity, store, events, k) == if n < |bytes| then Ok(bytes[n]) else Err(OffsetOutOfRange(REG_DATA))
  {
    BufferIsLastLoad(sha, integrity, store, events, j, k, bytes);
    var dev := At(sha, integrity, store, events, k).dev;
    if dev.cursor < |bytes| {
      MaskKeepsByte(bytes[dev.cursor], events[k].width);
    }
  }

  /** Nothing is served between a failed load or a reset and the next load. */
  lemma NothingAfterFailure(sha: Sha, integrity: Integrity, store: Store, events: seq<Event>, j: nat, k: nat)
    requires j < k < |events| && (IsLoad(events[j]) || events[j].DoReset?)
    requires forall i | j < i < k :: Keeps(events[i])
    requires IsLoad(events[j]) ==>
      var w := At(sha, integrity, store, events, j);
      ReadSector(sha, w.store, integrity, w.dev.selected).Err?
    ensures !Served(sha, integrity, store, events, k)
  {
    EmptyAfterFailure(sha, integrity, store, events, j, k);
  }

  lemma {:induction false} EmptyAfterFailure(
      sha: Sha, integrity: Integrity, store: Store, events: seq<Event>, j: nat, k: nat)
    requires j < k <= |events| && (IsLoad(events[j]) || events[j].DoReset?)
    requires forall i | j < i < k :: Keeps(events[i])
    requires IsLoad(events[j]) ==>
      var w := At(sha, integrity, store, events, j);
      ReadSector(sha, w.store, integrity, w.dev.selected).Err?
    ensures At(sha, integrity, store, events, k).dev.buffer == []
    decreases k
  {
    hide Step;
    hide ReadSector;
    OtherEventsKeepBuffer(sha, integrity, At(sha, integrity, store, events, k - 1), events[k - 1]);
    if k > j + 1 {
      EmptyAfterFailure(sha, integrity, store, events, j, k - 1);
      assert Keeps(events[k - 1]);
    }
  }

  // ---- The device as an object ------------------------------------------------

  class VirtioBlk {
    const sha: Sha
    const integrity: Integrity
    var backend: Store
    var selected: U64
    var status: U64
    var buffer: seq<Byte>
    var cursor: nat

    ghost function Value(): Dev
      reads this
    {
      Dev(selected, status, buffer, cursor)
    }

    constructor (sha: Sha, backend: Store, integrity: Integrity)
      ensures this.sha == sha && this.backend == backend && this.integrity == integrity && Value() == POWER_ON
    {
      this.sha := sha;
      this.backend := backend;
      this.integrity := integrity;
      selected := 0;
      status := STATUS_OK;
      buffer := [];
      cursor := 0;
    }

    method ImageDigest() returns (r: Result<string, VirtioError>)
      ensures r == match Sectors(backend, backend.sectors)
        case Ok(all) => Ok(sha(all))
        case Err(e) => Err(Device(e))
    {
      var all := [];
      for i := 0 to backend.sectors
        invariant Sectors(backend, i) == Ok(all)
      {
        var s := backend.read(i);
        if s.Err? {
          SectorsStopAt(backend, i, backend.sectors);
          return Err(Device(s.error));
        }
        all := all + s.value;
      }
      r := Ok(sha(all));
    }

    method ReadSectorAt(idx: nat) returns (r: Result<seq<Byte>, VirtioError>)
      ensures r == ReadSector(sha, backend, integrity, idx)
    {
      var capacity := backend.sectors;
      if idx >= capacity {
        return Err(SectorOutOfRange(idx, capacity));
      }
      var bytes := backend.read(idx);
      if bytes.Err? {
        return Err(Device(bytes.error));
      }
      match integrity {
        case PerSector(hashes) =>
          if idx >= |hashes| {
            return Err(IntegrityConfig(capacity, |hashes|));
          }
          var actual := sha(bytes.value);
          if actual != hashes[idx] {
            return Err(IntegrityFailure("sector " + Decimal.Print(idx), hashes[idx], actual));
          }
        case Image(expected) =>
          var actual := ImageDigest();
          if actual.Err? {
            return Err(actual.error);
          }
          if actual.value != expected {
            return Err(IntegrityFailure("image", expected, actual.value));
          }
      }
      r := Ok(bytes.value);
    }

    method VerifyAll() returns (r: Result<(), VirtioError>)
      ensures r == Verify(sha, backend, integrity)
    {
      match integrity
      case Image(expected) =>
        var actual := ImageDigest();
        if actual.Err? {
          return Err(actual.error);
        }
        if actual.value != expected {
          return Err(IntegrityFailure("image", expected, actual.value));
        }
        r := Ok(());
      case PerSector(hashes) =>
        var n := backend.sectors;
        if |hashes| != n {
          return Err(IntegrityConfig(n, |hashes|));
        }
        for i := 0 to n
          invariant FirstBad(sha, backend, integrity, 0) == FirstBad(sha, backend, integrity, i)
        {
          var s := ReadSectorAt(i);
          if s.Err? {
            return Err(s.error);
          }
        }
        r := Ok(());
    }

    method ReadRegister(offset: U64, width: Width) returns (r: Result<U64, DevError>)
      modifies this
      ensures backend == old(backend)
      ensures (Value(), r) == MmioRead(backend, old(Value()), offset, width)
    {
      if offset == REG_CAPACITY {
        r := Ok(And(backend.sectors, width.Mask()));
      } else if offset == REG_SECTOR_SIZE {
        r := Ok(And(SectorSize(backend), width.Mask()));
      } else if offset == REG_STATUS {
        r := Ok(And(status, width.Mask()));
      } else if offset == REG_DATA {
        if status != STATUS_OK || cursor >= |buffer| {
          return Err(OffsetOutOfRange(offset));
        }
        var b: U64 := buffer[cursor];
        cursor := cursor + 1;
        r := Ok(And(b, width.Mask()));
      } else {
        r := Err(OffsetOutOfRange(offset));
      }
    }

    method WriteRegister(offset: U64, value: U64) returns (r: Result<(), DevError>)
      modifies this
      ensures backend == old(backend)
      ensures (Value(), r) == MmioWrite(sha, backend, integrity, old(Value()), offset, value)
    {
      if offset == REG_SECTOR_SEL {
        selected := value;
        r := Ok(());
      } else if offset == REG_COMMAND && value == CMD_LOAD {
        var loaded := ReadSectorAt(selected);
        match loaded {
          case Ok(bytes) => buffer, cursor, status := bytes, 0, STATUS_OK;
          case Err(SectorOutOfRange(_, _)) => buffer, cursor, status := [], 0, STATUS_OUT_OF_RANGE;
          case Err(_) => buffer, cursor, status := [], 0, STATUS_INTEGRITY;
        }
        r := Ok(());
      } else {
        r := Err(OffsetOutOfRange(offset));
      }
    }

    method Reset()
      modifies this
      ensures backend == old(backend) && Value() == POWER_ON
    {
      selected := 0;
      status := STATUS_OK;
      buffer := [];
      cursor := 0;
    }
  }

  lemma {:induction false} SectorsStopAt(store: Store, i: nat, n: nat)
    requires i < n && Sectors(store, i).Ok? && store.read(i).Err?
    ensures Sectors(store, n) == Err(store.read(i).error)
    decreases n
  {
    if n > i + 1 {
      SectorsStopAt(store, i, n - 1);
    }
  }
}
