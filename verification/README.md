# Verified model of the slate-runtime hypervisor control plane

A Dafny model of the parts of the repository that keep state or promise something over time,
with proofs of what they promise. Where the Rust code changes fields and loops, the model is a
class or a method with a loop, proved equal to a function on values; the properties are lemmas
about those functions, over all inputs and over all runs.

- `Receipts`, `Json`, `Decimal`: the hash-chained audit log, tamper evidence, the JSON text that
  is hashed.
- `Sha384`, `Words`, `BitStrings`, `Bytes` against `Fips180`, `FipsConstants`: the imperative
  SHA-384 refines a specification on bit strings written from FIPS 180-4.
- `Rng`, `Blk`, `DeviceTypes`, `Hex`: the random-number and block devices.
- `Scheduler`, `Vcpu`: strict-priority round robin, exit dispatch, the run loop.
- `Mm`: nested page table, page zeroizer, memory quota.
- `Devices`: route tables, registration with roll-back, dispatch.
- `Utf8`, `Framing`, `Combiner`, `Crypto`: encodings that bind what goes into a key, the KEM and
  the signatures.
- `Manifest`, `Attest`, `Unlock`: signed manifests, downgrade check, attested key release and the
  gated unlock.
- `Capsule`, `Runtime`, `Control`: launch gates, the typed lifecycle, the registry of machines.
- `Net`: the rate-limited switch.

Outside `Sha384` every digest, MAC and HKDF is an arbitrary function of the right output length.
No theorem assumes that one has no collisions. A law that needs it concludes instead that the
inputs the code itself hashed collide, and names them; that some inputs collide would say nothing
of a function with outputs of fixed length.

Where the code and its documentation differ, the model follows the code, and the difference is a
theorem:

- `KilledCanRunAgain`: terminal vCPU states are sticky in the run loop (`TerminalIsSticky`), not
  under raw dispatch (`TerminalSurvives` says when).
- `StormLimitNeedsRoom`: the storm limit bounds the run loop exactly for limits below `u64::MAX`.
- `LateReserveIsNotChecked`, `LastAddressEscapes`, `AllocateTwiceShares`: what the page table does
  not check. `StepExclusive` and `ReservedIsSafeExactly` say exactly when the promise holds.
- `CanonicalUnambiguous`: the suite text is unambiguous exactly without plus signs in components.
- `WindowOverflowsExactly`, `IdsRepeatExactly`, `AttachDevices`: where unchecked 32- and 64-bit
  additions leave their range. The model wraps, as release builds do; debug builds panic there.
- `RandomnessApartFromRoot`: one derivation label is a prefix of another; only the length that
  follows keeps them apart, and the lemma says for which lengths it does.
- `SharedLines`: the interrupt line is the device number modulo 256.
- `SilentRefusals`: every transition is documented to append a receipt, and two concrete capsules
  leave none. `VerifySilentExactly` and `LaunchSilentExactly` say exactly when that happens,
  `VerifyAdds` and `LaunchAdds` which receipts each outcome leaves.
- `ResplitServesWrong`: one digest for a whole image vouches for its sectors exactly if the
  backend splits it evenly (`HoldsSectorsExactly`).

`dafny verify dfyconfig.toml` checks everything.

## Model

| member | source | states |
|---|---|---|
| Receipts.ReceiptChain.Append | crates/hyper-receipts/src/receipt.rs:192-240 | the new receipt holds each argument in its own field, the schema and the head before it, and hashes them; the chain grows by it alone and verifies afterwards exactly if it did before |
| Receipts.ReceiptChain.Verify | crates/hyper-receipts/src/receipt.rs:259-295 | accepts exactly the chains whose every receipt has the schema, links to its predecessor and carries its hash; otherwise reports the first receipt that is wrong and why |
| Receipts.ReceiptChain.HeadHash | crates/hyper-receipts/src/receipt.rs:180-185 | the hash of the last receipt, or the genesis text |
| Receipts.ReceiptChain.constructor | crates/hyper-receipts/src/receipt.rs:167-172 | an empty chain on the genesis text, which verifies |
| Receipts.AppendVerifies | crates/hyper-receipts/src/receipt.rs:192-240 | appending makes a valid chain of a chain if and only if the chain was valid |
| Receipts.AppendStores | crates/hyper-receipts/src/receipt.rs:192-240 | the last receipt has each of the five arguments in its own field, the schema, the old head as its link, the hash of all that as its hash and the id of its position and hash; the receipts before it stay |
| Receipts.AppendsDiffer | crates/hyper-receipts/src/receipt.rs:192-240 | appends with different arguments leave different fields to be hashed |
| Receipts.VerifiesMeans | crates/hyper-receipts/src/receipt.rs:259-295 | a chain verifies exactly when each receipt has the schema, the hash before it as its link and the hash of its own fields |
| Receipts.ErrorMeans | crates/hyper-receipts/src/receipt.rs:259-295 | at each receipt schema comes before link before hash, and each error shows what was expected and what was found |
| Receipts.EncodeIsObject | crates/hyper-receipts/src/receipt.rs:103-124 | the hashed text is the JSON object of the seven named members, in order |
| Receipts.TamperEvidence | crates/hyper-receipts/src/receipt.rs:259-295 | two valid chains with one head agree in every committed field from the end backwards, or two different field lists with one hash are among them; unequal lengths show a receipt that hashes to the genesis text |
| Receipts.AuditTamperEvidence | crates/hyper-receipts/src/receipt.rs:103-124 | the same down to the digest of the JSON text: the alternative names a receipt of each chain whose two texts differ and have one digest |
| Receipts.EditIsDetected | crates/hyper-receipts/src/receipt.rs:259-295 | editing a receipt without moving the head makes verification fail, or exposes two field lists with one hash |
| Receipts.ReceiptIdsDistinct | crates/hyper-receipts/src/receipt.rs:218-223 | ids of receipts at different positions differ whatever their hashes |
| Receipts.EncodeInjective | crates/hyper-receipts/src/receipt.rs:103-124 | different canonical fields have different JSON encodings |
| Receipts.ClashIsCollision | crates/hyper-receipts/src/receipt.rs:103-124 | two field lists with one receipt hash are a collision of the digest |
| Json.QuotePeel | crates/hyper-receipts/src/receipt.rs:121-123 | a JSON string literal determines its text and where it ends, for every text |
| Sha384.Sha384 | crates/hyper-virtio/src/hash.rs:107-189 | for every byte string, the 48 bytes are the bit-string digest of sections 4 to 6 of FIPS 180-4 |
| Sha384.Pad | crates/hyper-virtio/src/hash.rs:110-119 | the padding loop ends, and gives the message, the marker, the zeros and the 128-bit length |
| Sha384.ZerosNeededIsLeast | crates/hyper-virtio/src/hash.rs:114-116 | no smaller number of zeros reaches 112 modulo 128 |
| Sha384.PaddedBytesLength | crates/hyper-virtio/src/hash.rs:110-119 | the padded length is the one multiple of 128 from len + 17 up |
| Sha384.PaddingBits | crates/hyper-virtio/src/hash.rs:110-119 | the byte padding is the bit padding of section 5.1.2 of FIPS 180-4 |
| Sha384.PaddingInjective | crates/hyper-virtio/src/hash.rs:110-119 | no two messages of legal length have the same padding |
| Sha384.Schedule | crates/hyper-virtio/src/hash.rs:123-140 | the 80 words are the message schedule of section 6.4.2 of FIPS 180-4 |
| Sha384.WorkingVariables | crates/hyper-virtio/src/hash.rs:142-171 | the 80 rounds compute the specified working variables |
| Sha384.Compress | crates/hyper-virtio/src/hash.rs:122-181 | one block updates the hash value as specified |
| Sha384.HashBlocks | crates/hyper-virtio/src/hash.rs:107-181 | the blocks in order give the specified final hash value |
| Sha384.Output | crates/hyper-virtio/src/hash.rs:183-188 | the leading words, big-endian |
| FipsConstants.RoundConstants | crates/hyper-virtio/src/hash.rs:11-92 | each round constant is the first 64 bits of the fraction of a cube root of a prime |
| FipsConstants.InitialValues | crates/hyper-virtio/src/hash.rs:95-104 | the initial words are the first 64 bits of the fractions of the square roots of the ninth to sixteenth primes |
| Hex.Print | crates/hyper-virtio/src/hash.rs:192-200 | two lower-case digits a byte, in order |
| Hex.RoundTrip | crates/hyper-qrse/src/manifest.rs:193-204 | decoding undoes encoding for every byte string |
| Hex.EncodeDigits | crates/hyper-virtio/src/hash.rs:192-200 | byte k is at places 2k and 2k + 1, its high digit before its low one, as the characters 0 to 9 and a to f |
| Hex.DecodeFails | crates/hyper-qrse/src/manifest.rs:226-245 | decoding succeeds exactly on digits throughout, and otherwise reports the first other character at its place |
| Rng.StreamAt | crates/hyper-virtio/src/rng.rs:56-63 | byte i of the stream is byte i mod 48 of the digest of the seed and block number i / 48 mod 2^64, both little-endian |
| Rng.BlockInputMeans | crates/hyper-virtio/src/rng.rs:56-63 | the digested bytes are eight of the seed and then eight of the counter, each least significant first |
| Rng.BlockInputInjective | crates/hyper-virtio/src/rng.rs:56-63 | different seeds or counters are digested from different bytes |
| Rng.ReadsAreOneSegment | crates/hyper-virtio/src/rng.rs:76-80 | however a read is cut up, the pieces join to the same bytes |
| Rng.StreamPeriod | crates/hyper-virtio/src/rng.rs:56-63 | the counter wraps, so the stream repeats after 48 * 2^64 bytes |
| Rng.OrNextByte | crates/hyper-virtio/src/rng.rs:95-107 | or-ing in a shifted byte appends it to the little-endian number |
| Rng.VirtioRng.constructor | crates/hyper-virtio/src/rng.rs:36-46 | a generator at position 0 of its seed's stream |
| Rng.VirtioRng.Refill | crates/hyper-virtio/src/rng.rs:56-63 | fetches the next block; the buffer is always the block before the counter |
| Rng.VirtioRng.Reseed | crates/hyper-virtio/src/rng.rs:49-54 | position 0 of the new seed's stream |
| Rng.VirtioRng.Reset | crates/hyper-virtio/src/rng.rs:138-143 | position 0 of the same seed's stream |
| Rng.VirtioRng.NextByte | crates/hyper-virtio/src/rng.rs:66-73 | the byte of the stream at the current position, which advances by one |
| Rng.VirtioRng.Fill | crates/hyper-virtio/src/rng.rs:76-80 | the next segment of the stream, as long as the buffer |
| Rng.VirtioRng.Bytes | crates/hyper-virtio/src/rng.rs:83-87 | the next n bytes of the stream |
| Rng.VirtioRng.MmioRead | crates/hyper-virtio/src/rng.rs:95-107 | the data register reads the next bytes as a little-endian number; any other offset fails and consumes nothing |
| Rng.VirtioRng.MmioWrite | crates/hyper-virtio/src/rng.rs:109-120 | the seed register rewinds to the new seed if the value fits the width; every error leaves seed and position alone |
| Blk.ReadSectorVouched | crates/hyper-virtio/src/blk.rs:224-263 | a sector is served exactly when it is in range, the backend has it and its digest (or the image's) matches |
| Blk.ReadSectorErrors | crates/hyper-virtio/src/blk.rs:224-263 | a refused read reports the range, else the backend's error, else the digest that is missing or the two that differ |
| Blk.LoadMeans | crates/hyper-virtio/src/blk.rs:293-327 | after a load the status is 1 exactly beyond the capacity, 0 exactly with the vouched sector buffered, 2 otherwise; the cursor is at the start and a failure leaves nothing buffered |
| Blk.ReadRegisters | crates/hyper-virtio/src/blk.rs:271-291 | which offset reads capacity, sector size and status, cut to the width, and that any other but the data port fails |
| Blk.WriteRegisters | crates/hyper-virtio/src/blk.rs:293-327 | the selector offset selects, the command offset with 1 loads, every other write fails and changes nothing |
| Blk.FirstBadMeans | crates/hyper-virtio/src/blk.rs:190-217 | the check over all sectors reports the error of the first that fails |
| Blk.MemorySectorSize | crates/hyper-virtio/src/blk.rs:157-167 | a whole in-memory image reports its sector size, an empty one 0 |
| Blk.PaddedAt | crates/hyper-virtio/src/blk.rs:44-58 | the padded image is the data followed by zeros |
| Blk.VerifyPerSector | crates/hyper-virtio/src/blk.rs:190-217 | per-sector verification passes exactly when there is one digest a sector and each matches |
| Blk.VerifyPinsImage | crates/hyper-virtio/src/blk.rs:190-217 | with the digest of an image expected, exactly that image and data whose digest collides with it pass |
| Blk.VerifySectorsExactly | crates/hyper-virtio/src/blk.rs:190-217 | with the sector digests of an image expected, exactly the data whose every sector has the image's digest passes |
| Blk.VerifyPinsSectors | crates/hyper-virtio/src/blk.rs:190-217 | if what passes is not the image, the lemma names a sector of the two that differs under one digest |
| Blk.MemorySectors | crates/hyper-virtio/src/blk.rs:59-75 | a whole image of n sectors has n readable ones, its slices, and an error beyond |
| Blk.SectorsConcatenate | crates/hyper-virtio/src/blk.rs:59-75 | the first k sectors of an in-memory image concatenate to its first k sectors' bytes |
| Blk.PaddedReadsBack | crates/hyper-virtio/src/blk.rs:44-75 | a padded image reads back as itself, with the data as a prefix |
| Blk.ServedByteIsVouched | crates/hyper-virtio/src/blk.rs:266-350 | in every run, with any changes of the backend, a byte read from the data register is the next unread byte of the last load, and a digest vouched for that load |
| Blk.ServedByteIsTrusted | crates/hyper-virtio/src/blk.rs:224-350 | with the sector digests of a trusted image, every byte served is that image's at the selected sector, or the bytes loaded collide with that very sector |
| Blk.ServedImageByteIsTrusted | crates/hyper-virtio/src/blk.rs:224-350 | the same with one image digest, for a backend that splits evenly; the alternative is that what the backend held collides with the image |
| Blk.HoldsSectorsExactly | crates/hyper-virtio/src/blk.rs:180-187 | a backend holding an image's bytes holds its sectors exactly when it splits them evenly |
| Blk.ResplitServesWrong | crates/hyper-virtio/src/blk.rs:180-263 | an uneven split of the same bytes passes the image digest and serves the wrong sector |
| Blk.LoadIsServedInOrder | crates/hyper-virtio/src/blk.rs:271-291 | after a load, the n-th read gives byte n, and an error once all bytes are read |
| Blk.NothingAfterFailure | crates/hyper-virtio/src/blk.rs:266-350 | no byte is served between a failed load or a reset and the next load |
| Blk.MaskKeepsByte | crates/hyper-virtio/src/blk.rs:279-288 | no access width changes a byte |
| Blk.VirtioBlk.ImageDigest | crates/hyper-virtio/src/blk.rs:180-187 | the digest of all sectors in order, or the error of the first that cannot be read |
| Blk.VirtioBlk.ReadSectorAt | crates/hyper-virtio/src/blk.rs:224-263 | the sector read as specified, with the specified error otherwise |
| Blk.VirtioBlk.VerifyAll | crates/hyper-virtio/src/blk.rs:190-217 | the verdict of the specified check, the first bad sector deciding |
| Blk.VirtioBlk.ReadRegister | crates/hyper-virtio/src/blk.rs:271-291 | the register read of the state machine; the backend is untouched |
| Blk.VirtioBlk.WriteRegister | crates/hyper-virtio/src/blk.rs:293-327 | the register write of the state machine: select, load, or an error that changes nothing |
| Blk.VirtioBlk.Reset | crates/hyper-virtio/src/blk.rs:345-350 | the power-on state |
| Scheduler.ReachableInv | crates/hyper-vcpu/src/lib.rs:527-559 | over every run, blocked ids sit in no queue and no class holds an id twice |
| Scheduler.NextServesTopClass | crates/hyper-vcpu/src/lib.rs:547-559 | the pick is the front of the first non-empty class, which moves to its back; nothing is dropped |
| Scheduler.NextKeepsInv | crates/hyper-vcpu/src/lib.rs:547-559 | the invariant is kept, and nothing is picked exactly when all queues are empty |
| Scheduler.BoundedWaiting | crates/hyper-vcpu/src/lib.rs:527-559 | an id at position p is returned within the next p + 1 picks, under any operations that leave higher classes empty and do not block it |
| Scheduler.EnqueueEffect | crates/hyper-vcpu/src/lib.rs:527-533 | the id joins the back of its class unless it is there, is unblocked, and nothing else changes |
| Scheduler.BlockEffect | crates/hyper-vcpu/src/lib.rs:537-542 | the id leaves every class and is blocked; who else waits or is blocked does not change |
| Scheduler.PicksRotate | crates/hyper-vcpu/src/lib.rs:547-559 | n picks serve the first n of the top class in order and rotate them to its back |
| Scheduler.FullRound | crates/hyper-vcpu/src/lib.rs:547-559 | a round over the top class serves all of it in order and restores the scheduler exactly |
| Scheduler.Scheduler.constructor | crates/hyper-vcpu/src/lib.rs:513-523 | an empty scheduler |
| Scheduler.Scheduler.EnqueueId | crates/hyper-vcpu/src/lib.rs:527-533 | unblocks the id and appends it to its class unless it is there |
| Scheduler.Scheduler.BlockId | crates/hyper-vcpu/src/lib.rs:537-542 | removes the id from every class and blocks it |
| Scheduler.Scheduler.NextRunnable | crates/hyper-vcpu/src/lib.rs:547-559 | the loop over classes and blocked entries computes the specified pick and queues |
| Scheduler.Retain | crates/hyper-vcpu/src/lib.rs:537-542 | keeps the other ids in order |
| Vcpu.StaysRunnable | crates/hyper-vcpu/src/lib.rs:337-395 | a runnable guest stays runnable exactly after an allow-listed or harmless exit within the storm limit |
| Vcpu.EmulationIsAllowListed | crates/hyper-vcpu/src/lib.rs:337-395 | ports and MSRs are emulated only if intercepted and allow-listed |
| Vcpu.ActionOf | crates/hyper-vcpu/src/lib.rs:337-395 | which exits kill, quarantine, inject a protection fault, block and resume, each exactly; nothing halts the host |
| Vcpu.StateAfter | crates/hyper-vcpu/src/lib.rs:398-413 | one exit more, its reason kept, the policy untouched, and the state its action asks for |
| Vcpu.TerminalSurvives | crates/hyper-vcpu/src/lib.rs:398-413 | a terminal state survives an exit exactly unless it is an intercepted HLT within the storm limit |
| Vcpu.KilledCanRunAgain | crates/hyper-vcpu/src/lib.rs:398-413 | two raw dispatches bring a killed vCPU back to running |
| Vcpu.NotRunnableIsSticky | crates/hyper-vcpu/src/lib.rs:425-450 | the run loop refuses a vCPU that is not runnable, and any number of calls change neither it nor the backend |
| Vcpu.TerminalIsSticky | crates/hyper-vcpu/src/lib.rs:425-450 | a terminal state that a run loop ends in survives all later ones |
| Vcpu.RunLoopTerminates | crates/hyper-vcpu/src/lib.rs:425-450 | whatever the backend reports, the loop returns Ok within limit - exits + 1 steps, not runnable, with exits grown by the steps |
| Vcpu.StormLimitNeedsRoom | crates/hyper-vcpu/src/lib.rs:425-450 | that bound holds exactly for limits below u64::MAX |
| Vcpu.BudgetExceeded | crates/hyper-vcpu/src/lib.rs:425-450 | a step-budget error means exactly that many exits and a still runnable guest |
| Vcpu.ScriptBound | crates/hyper-vcpu/src/lib.rs:270-282 | with the scripted backend, the remaining script plus one exit is also a bound |
| Vcpu.ScriptReplays | crates/hyper-vcpu/src/lib.rs:270-282 | a script of exits a guest may go on after is replayed to its end, and the shutdown after it kills |
| Vcpu.Vcpu.constructor | crates/hyper-vcpu/src/lib.rs:166-177 | a ready vCPU with all intercepts on |
| Vcpu.Vcpu.RecordExit | crates/hyper-vcpu/src/lib.rs:179-182 | the exit counter saturates, the last reason is kept |
| Vcpu.Vcpu.Apply | crates/hyper-vcpu/src/lib.rs:398-413 | the state that an action leads to |
| Vcpu.HandleExit | crates/hyper-vcpu/src/lib.rs:337-395 | record, storm check, decision and application, in that order |
| Vcpu.RunVcpu | crates/hyper-vcpu/src/lib.rs:425-450 | the loop computes the specified outcome for every backend |
| Vcpu.VcpuIdAllocator.Alloc | crates/hyper-vcpu/src/lib.rs:71-75 | the next id of the 32-bit sequence from 0 |
| Vcpu.IdsRepeatExactly | crates/hyper-vcpu/src/lib.rs:71-75 | two allocations get one id exactly when their numbers agree modulo 2^32 |
| Mm.TouchesBytes | crates/hyper-mm/src/lib.rs:327-332 | the frames of a range are those of its addressable bytes, also where the end saturates |
| Mm.AssignErrorMeans | crates/hyper-mm/src/lib.rs:361-377 | assignment succeeds exactly on zeroed frames; otherwise the first other frame decides the error |
| Mm.MapIsAllOrNothing | crates/hyper-mm/src/lib.rs:614-636 | map succeeds exactly on an enforceable range of zeroed frames, and on error changes nothing |
| Mm.MapEffect | crates/hyper-mm/src/lib.rs:614-636 | a successful map uses the next id, records the mapping in both tables and assigns the range's frames; nothing else changes |
| Mm.UnmapEffect | crates/hyper-mm/src/lib.rs:638-645 | unmapping drops one mapping and its record, poisons its frames and changes nothing else |
| Mm.EnforceExactly | crates/hyper-mm/src/lib.rs:571-585 | the checks pass exactly for ranges that are not empty, not writable and executable, and apart from the reserved range; emptiness is reported first |
| Mm.OverlapsShares | crates/hyper-mm/src/lib.rs:150-158 | two ranges overlap exactly when they share an address below the last |
| Mm.AllocateFailsLikeEnforce | crates/hyper-mm/src/lib.rs:590-610 | allocate fails exactly when the checks fail, and then changes nothing; otherwise it takes the range |
| Mm.ReachableInv | crates/hyper-mm/src/lib.rs:511-650 | over every run the records are the inner table's mappings, no page is writable and executable, and with the reserved range fixed beforehand no mapping overlaps it |
| Mm.LateReserveIsNotChecked | crates/hyper-mm/src/lib.rs:531-533 | reserving a range late leaves a mapping inside it |
| Mm.TranslateIsOldest | crates/hyper-mm/src/lib.rs:287-297 | nothing unmapped translates; of several mappings containing an address the oldest does |
| Mm.TranslateInNumbers | crates/hyper-mm/src/lib.rs:287-297 | the oldest mapping over an address sends it to its host base plus the address's offset from its guest base, and to the last 64-bit address if that sum does not fit |
| Mm.UncoveredIsUnmapped | crates/hyper-mm/src/lib.rs:287-297 | no translation exactly outside every mapping's range and at the last guest address |
| Mm.MappedIsTranslated | crates/hyper-mm/src/lib.rs:614-636 | after a successful map or allocation every address gpa + o of the range goes to hpa + o, unless an older mapping covers it |
| Mm.OldTranslationsStay | crates/hyper-mm/src/lib.rs:614-636 | no map or allocation moves an address that was translated before |
| Mm.UnmapUntranslates | crates/hyper-mm/src/lib.rs:638-645 | after unmapping, only other mappings translate, and what lies outside the unmapped range translates as before |
| Mm.TranslateAvoidsReserved | crates/hyper-mm/src/lib.rs:150-158 | no translation lands in the reserved range as computed; in the unclipped range it does exactly at the last 64-bit address when the range reaches past it |
| Mm.ReservedIsSafeExactly | crates/hyper-mm/src/lib.rs:150-158 | a range reserved from the start is never reached, over any run that leaves it reserved, exactly if it ends inside the 64-bit address space |
| Mm.LastAddressEscapes | crates/hyper-mm/src/lib.rs:150-158 | that last address can be mapped although reserved |
| Mm.StepExclusive | crates/hyper-mm/src/lib.rs:322-393 | one operation keeps live mappings on disjoint assigned frames exactly when it does not zero, poison or allocate over a live frame |
| Mm.ReachableExclusive | crates/hyper-mm/src/lib.rs:571-650 | over every such run, live mappings own disjoint sets of assigned frames |
| Mm.TranslationsApart | crates/hyper-mm/src/lib.rs:287-297 | two live mappings of such a table never translate into one host frame |
| Mm.AllocateTwiceShares | crates/hyper-mm/src/lib.rs:590-610 | two allocations of one range share its frames |
| Mm.UnmappedStaysOut | crates/hyper-mm/src/lib.rs:638-645 | a frame of an unmapped mapping cannot be mapped again, over any run, until it is zeroed |
| Mm.PageZeroizer.MarkZeroed | crates/hyper-mm/src/lib.rs:335-343 | exactly the frames of the range become zeroed |
| Mm.PageZeroizer.Poison | crates/hyper-mm/src/lib.rs:380-388 | exactly the frames of the range become poisoned |
| Mm.PageZeroizer.Assign | crates/hyper-mm/src/lib.rs:361-377 | the two loops check all frames first and then assign them all |
| Mm.InMemoryNpt.MapRange | crates/hyper-mm/src/lib.rs:255-278 | records the mapping under the next id, or refuses length zero |
| Mm.InMemoryNpt.UnmapId | crates/hyper-mm/src/lib.rs:280-285 | removes the mapping, or reports the unknown id |
| Mm.InMemoryNpt.TranslateAddress | crates/hyper-mm/src/lib.rs:287-297 | the first mapping in id order that covers the address, which goes to its host base plus the offset, clipped at the top |
| Mm.NestedPageTable.MapRange | crates/hyper-mm/src/lib.rs:614-636 | the specified mapping step over table, zeroizer and records |
| Mm.NestedPageTable.UnmapId | crates/hyper-mm/src/lib.rs:638-645 | the specified unmapping step: gone from both tables, frames poisoned |
| Mm.NestedPageTable.AllocateRange | crates/hyper-mm/src/lib.rs:590-610 | the specified allocation step and its record |
| Mm.NestedPageTable.Reserve | crates/hyper-mm/src/lib.rs:531-533 | replaces the reserved range and nothing else |
| Mm.MemoryQuotaManager.TryReserve | crates/hyper-mm/src/lib.rs:414-424 | reserves exactly what fits under the cap, and otherwise reports what is left |
| Mm.MemoryQuotaManager.Release | crates/hyper-mm/src/lib.rs:427-429 | gives back, never below zero |
| Devices.OverlapsShares | crates/hyper-devices/src/lib.rs:165-180 | windows overlap exactly when they share an address |
| Devices.InsertAccepts | crates/hyper-devices/src/lib.rs:194-207 | a window is accepted exactly when it is not empty and takes no routed address; disjointness is kept |
| Devices.OwnerUnique | crates/hyper-devices/src/lib.rs:211-216 | the route that contains an address is its one owner |
| Devices.LastAddressUnrouted | crates/hyper-devices/src/lib.rs:165-180 | the last 64-bit address can never be routed |
| Devices.BindThenLook | crates/hyper-devices/src/lib.rs:310-325 | a binding sets the device's own line and leaves every other alone |
| Devices.FailedRegisterRestores | crates/hyper-devices/src/lib.rs:387-414 | a failed registration restores every table exactly |
| Devices.RegisterInstalls | crates/hyper-devices/src/lib.rs:387-414 | a successful registration puts the device at the next index, gives that index every address of its MMIO and port windows at its offset from the base, and its line; every other address and line stays |
| Devices.RegistersExactly | crates/hyper-devices/src/lib.rs:387-414 | registration succeeds exactly when both windows are not empty and nothing answers inside them |
| Devices.InsertRefuses | crates/hyper-devices/src/lib.rs:194-207 | an empty window is refused at its own base, any other at the base of the first window in its way |
| Devices.RegisterRefuses | crates/hyper-devices/src/lib.rs:387-414 | the MMIO window's refusal is reported before the port window's |
| Devices.RegisteredAnswers | crates/hyper-devices/src/lib.rs:387-468 | after a successful registration accesses inside the new windows reach the new device at their offset, and all others do what they did before |
| Devices.RegisterKeepsInv | crates/hyper-devices/src/lib.rs:387-414 | windows stay disjoint and name registered devices, interrupt bindings stay unique |
| Devices.ReachableInv | crates/hyper-devices/src/lib.rs:387-468 | over every run of registrations and accesses the tables keep their invariant and lose no route |
| Devices.DispatchReachesOwner | crates/hyper-devices/src/lib.rs:417-468 | an access reaches the one device whose window contains it, at its offset, and no other; outside every window it fails and changes nothing |
| Devices.TestReadsBack | crates/hyper-devices/src/lib.rs:541-559 | a value that fits is read back unchanged, a wider one is refused, no other register moves |
| Devices.PortReadsBack | crates/hyper-devices/src/lib.rs:560-578 | the same through ports, where 32 bits are the most that fit |
| Devices.OffRegister | crates/hyper-devices/src/lib.rs:529-538 | only the eight aligned offsets below 64 are registers; any other access fails and changes nothing |
| Devices.RouteTable.InsertRoute | crates/hyper-devices/src/lib.rs:194-207 | appends the route or reports the first conflict |
| Devices.RouteTable.Translate | crates/hyper-devices/src/lib.rs:211-216 | index and offset of the first route that contains the address |
| Devices.RouteTable.Retain | crates/hyper-devices/src/lib.rs:387-414 | drops the routes of one device and keeps the others in order |
| Devices.VirtualDeviceGraph.RegisterDevice | crates/hyper-devices/src/lib.rs:387-414 | the specified registration over all three tables, with its roll-back; on success the device is last, owns the addresses of both windows at their offsets and has its line |
| Devices.VirtualDeviceGraph.DispatchAccess | crates/hyper-devices/src/lib.rs:417-468 | the specified dispatch |
| Devices.AttachDevices | crates/hyper-vm/src/runtime.rs:608-621 | the attach loop succeeds exactly for up to 2^52 devices, each with its own window and line; one more collides with the first |
| Devices.AttachedAnswers | crates/hyper-vm/src/runtime.rs:608-621 | attached device i answers the 64 addresses from page i + 1 on, on line i modulo 256 |
| Devices.SharedLines | crates/hyper-vm/src/runtime.rs:608-621 | attached devices share an interrupt line exactly when their numbers agree modulo 256 |
| DeviceTypes.MaskKeepsLowBytes | crates/hyper-devices/src/lib.rs:67-72 | masking keeps the low bytes of the width |
| DeviceTypes.MaskFits | crates/hyper-devices/src/lib.rs:551-558 | no bit outside the mask exactly for values that fit |
| Utf8.EncodeInjective | crates/hyper-qrse/src/combiner.rs:82-87 | different texts have different bytes |
| Utf8.AsciiIsItself | crates/hyper-qrse/src/combiner.rs:82-87 | a text of 7-bit characters is its own bytes |
| Framing.FramesInjective | crates/hyper-qrse/src/combiner.rs:76-81 | a list of length-prefixed parts can be read back in one way only, however many parts |
| Combiner.CanonicalUnambiguous | crates/hyper-qrse/src/combiner.rs:55-57 | the canonical text names one suite exactly when no component contains a plus sign |
| Combiner.ContextBinds | crates/hyper-qrse/src/combiner.rs:76-89 | equal encodings bind every field, the suite through its canonical text |
| Combiner.ContextToBytes | crates/hyper-qrse/src/combiner.rs:76-89 | the six parts, framed, in order |
| Combiner.InfoWritten | crates/hyper-qrse/src/combiner.rs:134-142 | the info is the label and the frames of volume, device, policy, version, suite text and measurement, in that order |
| Combiner.LabelText | crates/hyper-qrse/src/combiner.rs:25 | the label is the bytes of storage-unlock-v1 |
| Combiner.DerivationInputsBind | crates/hyper-qrse/src/combiner.rs:134-142 | equal key material and info bind both secrets and the whole context |
| Combiner.KekBindsInputs | crates/hyper-qrse/src/combiner.rs:120-150 | equal keys mean equal secrets, transcript digest and context, or the two derivations' own inputs collide |
| Combiner.Combine | crates/hyper-qrse/src/combiner.rs:120-150 | a key of the asked length exactly when both secrets are not all zero and the length is one HKDF can give |
| Crypto.KdfInputInjective | crates/hyper-qrse/src/crypto.rs:112-123 | derivation inputs over all the crate's domains are equal only for one domain and equal parts |
| Crypto.RandomnessApartFromRoot | crates/hyper-qrse/src/crypto.rs:112-180 | the inputs for encapsulation randomness and for the key root, whose labels are prefix-related, can never be equal exactly unless the key length is in one range near 2^63 |
| Crypto.KemRoundTrip | crates/hyper-qrse/src/crypto.rs:166-195 | decapsulation recovers the encapsulated secret |
| Crypto.KeypairBinds | crates/hyper-qrse/src/crypto.rs:157-172 | one decapsulation key is for one algorithm and seed, or the two named derivation inputs collide |
| Crypto.EncapsulationBinds | crates/hyper-qrse/src/crypto.rs:174-180 | one ciphertext is for one encapsulation key and one seed, or the named inputs of the ciphertext or of the randomness collide |
| Crypto.DecapsulationRefuses | crates/hyper-qrse/src/crypto.rs:182-195 | decapsulation fails exactly for an empty key or an empty ciphertext, the key first |
| Crypto.LabelIsText | crates/hyper-qrse/src/crypto.rs:157-300 | each derivation label is the bytes of its text |
| Crypto.DecapsulationBinds | crates/hyper-qrse/src/crypto.rs:182-194 | another key or ciphertext gives another secret, or the two named derivation inputs collide in the truncated digest |
| Crypto.SignerSecretBinds | crates/hyper-qrse/src/crypto.rs:208-224 | signers with one secret have one algorithm, key id and seed, or their two derivation inputs collide |
| Crypto.Stretch | crates/hyper-qrse/src/crypto.rs:265-284 | the loop repeats the pad after the tag up to the declared length, never cutting the tag |
| Crypto.SignHexVerify | crates/hyper-qrse/src/crypto.rs:255-326 | a signature has length max(48, declared) and verifies under its own verifier after hex encoding and decoding |
| Crypto.AcceptsOwn | crates/hyper-qrse/src/crypto.rs:265-318 | a signature is accepted exactly when algorithm, key id and first 48 bytes are those of the signer's own, which are the MAC of name, bar and message |
| Crypto.PadRepeats | crates/hyper-qrse/src/crypto.rs:265-284 | after the first 48 bytes a signature repeats the pad derived from them |
| Crypto.TagInputBinds | crates/hyper-qrse/src/crypto.rs:237-245 | for names without a bar what is tagged determines the name and the message |
| Crypto.SignatureBindsMessage | crates/hyper-qrse/src/crypto.rs:304-326 | a signature accepted for one message is accepted for another exactly if the two MAC inputs collide under the signer's key |
| Manifest.VerifiesExactly | crates/hyper-qrse/src/manifest.rs:226-274 | verification succeeds exactly with the right format, only hex signatures and an accepted post-quantum one |
| Manifest.VerifiesInFields | crates/hyper-qrse/src/manifest.rs:226-274 | a manifest verifies exactly with the right format, hex signatures throughout, and a verifier of the same key id and algorithm whose check of the decoded bytes over the body passes, for a post-quantum algorithm |
| Manifest.VerificationErrors | crates/hyper-qrse/src/manifest.rs:226-274 | a wrong format comes first, then the first signature that is not hex, then only classical signatures that verify, then none |
| Manifest.PostQuantumNames | crates/hyper-qrse/src/manifest.rs:152-155 | the two post-quantum families count in any letter case, the classical names do not |
| Manifest.SigningKeepsVerified | crates/hyper-qrse/src/manifest.rs:193-204 | any further signature keeps a manifest verified; its purposes grow by one exactly if that signature is an accepted post-quantum one |
| Manifest.SignThenVerify | crates/hyper-qrse/src/manifest.rs:193-274 | a well-formed manifest verifies once a trusted post-quantum signer has signed it |
| Manifest.Verify | crates/hyper-qrse/src/manifest.rs:226-274 | the loop computes the specified verdict, error order included |
| Manifest.DowngradeExactly | crates/hyper-qrse/src/downgrade.rs:64-109 | no downgrade exactly at both version floors and, under a strict policy, with a hybrid slot and none without its post-quantum leg |
| Manifest.DowngradeVerdicts | crates/hyper-qrse/src/downgrade.rs:64-109 | the verdict names the floor, then the counter, then the first hybrid slot without its post-quantum leg, then the lack of hybrid slots |
| Attest.FirstMismatchIsLeast | crates/hyper-attest/src/pcr.rs:63-70 | extra registers are ignored; the lowest that does not match is reported |
| Attest.SatisfiesMeans | crates/hyper-attest/src/pcr.rs:63-70 | a bank satisfies another exactly when it holds every register of it with its value |
| Attest.FindMismatch | crates/hyper-attest/src/pcr.rs:63-70 | the loop finds it |
| Attest.ReleasedExactly | crates/hyper-attest/src/kms.rs:323-349 | nothing is denied exactly when every gate passes |
| Attest.DenialNamesFirstGate | crates/hyper-attest/src/kms.rs:323-349 | a denial names the first gate that fails, boot policy before registers, capsule and version |
| Attest.DenialTells | crates/hyper-attest/src/kms.rs:323-349 | the text of each denial, with the register or the values that were compared |
| Attest.EvaluateIsRecorded | crates/hyper-attest/src/kms.rs:368-401 | every decision leaves exactly one receipt with its event, machine, policy, decision and request hash, and keeps the chain valid; a release is the wrapped key |
| Attest.EvaluateRequest | crates/hyper-attest/src/kms.rs:368-401 | the specified decision and receipt on the shared chain |
| Attest.EvidenceIsPositive | crates/hyper-attest/src/kms.rs:422-447 | evidence exists exactly for releases, and then shows every gate passed |
| Attest.SecretHandle.Zeroize | crates/hyper-attest/src/secret.rs:39-43 | every byte zero, same length |
| Unlock.UnlocksExactly | crates/hyper-qrse/src/unlock.rs:69-165 | a key comes out exactly when the manifest verifies and is no downgrade, a keyslot unlocks, the request's measurement, registers, capsule hash and version pass, and both secrets are not all zero |
| Unlock.AsksForRequest | crates/hyper-qrse/src/unlock.rs:115-129 | the key service is asked about the request's own device, measurement, registers and version, for the manifest's volume and version |
| Unlock.FirstUnlockingMeans | crates/hyper-qrse/src/unlock.rs:100-113 | the suite is that of the first active hybrid slot with a post-quantum leg |
| Unlock.UnlockErrors | crates/hyper-qrse/src/unlock.rs:69-165 | which of the seven failures a request without a key reports, in the order of the gates |
| Unlock.InputWritten | crates/hyper-qrse/src/unlock.rs:137-153 | HKDF is given the digest of the signed body as salt, both secrets as key material, and label and six frames written out from the request |
| Unlock.KeyIsFor | crates/hyper-qrse/src/unlock.rs:137-153 | a key is HKDF, to 32 bytes, of the digest of the signed body, both decapsulated secrets, and label and frames of the request's own fields |
| Unlock.KeyIsDerived | crates/hyper-qrse/src/unlock.rs:137-153 | the key is 32 bytes of HKDF of that input |
| Unlock.UnlockLeavesTrail | crates/hyper-qrse/src/unlock.rs:69-176 | the chain grows by exactly two allows for a key, one denial for a gate, the key service's allow alone for a crypto failure, each with its policy and the hash of what was decided on |
| Unlock.UnlockKeepsChainValid | crates/hyper-qrse/src/unlock.rs:69-176 | the chain verifies afterwards exactly if it did before |
| Unlock.KeyIsBound | crates/hyper-qrse/src/unlock.rs:137-153 | one key from two unlocks means equal device, volume, policy, version and measurement in the two requests, equal secrets, suite text and manifest digest, or their own two HKDF inputs collide |
| Unlock.KeyMeansOneBody | crates/hyper-qrse/src/unlock.rs:137-153 | with an injective encoding one key means one manifest body, or the two signed texts collide, or the two HKDF inputs do |
| Unlock.VersionsNeverDecrease | crates/hyper-qrse/src/unlock.rs:93-98 | with a counter at least every version accepted before, accepted versions never decrease |
| Unlock.AttestedHybridUnlock | crates/hyper-qrse/src/unlock.rs:69-165 | the gates in order compute the specified result and chain; a key is HKDF of the request's own secrets and framed fields |
| Capsule.ClearedExactly | crates/hyper-capsule/src/lib.rs:606-673 | the engine allows exactly what the policy asks, the gate exactly what a capsule must meet |
| Capsule.GateReportsFirst | crates/hyper-capsule/src/lib.rs:606-673 | launch is approved exactly when nine conditions hold, and otherwise the first broken one is reported with its values |
| Capsule.EngineReportsFirst | crates/hyper-policy/src/engine.rs:162-184 | which condition of the policy is broken decides the denial |
| Runtime.VerifiesExactly | crates/hyper-vm/src/runtime.rs:409-475 | verification passes exactly for capsules that meet both |
| Runtime.RamExactly | crates/hyper-vm/src/runtime.rs:481-501 | memory can be had exactly within the budget and up to 251654144 MB, as one fresh mapping |
| Runtime.LaunchesExactly | crates/hyper-control/src/control.rs:346-351 | prepare, unlock, attach and run all succeed exactly for capsules within memory, past every key gate and without forbidden passthrough or too many devices |
| Runtime.LaunchErrors | crates/hyper-control/src/control.rs:346-351 | a failed launch reports budget, reserved range, key service, passthrough or bus, in that order |
| Runtime.LaunchStarts | crates/hyper-control/src/control.rs:346-351 | a started guest has its capsule's memory, key and vCPUs, and a bus of disjoint windows, one device a disk and NIC |
| Runtime.GuestMemory | crates/hyper-control/src/control.rs:346-351 | a launched guest sees exactly its megabytes, at least a page, from guest address 0, at host 4 GiB plus the address |
| Runtime.GuestShape | crates/hyper-control/src/control.rs:346-351 | it has its capsule's id, manifest, NICs and vCPUs, all running and enqueued in id order, and one device a disk and NIC |
| Runtime.GuestDevices | crates/hyper-control/src/control.rs:346-351 | its device i answers at page i + 1 of the bus, on line i modulo 256 |
| Runtime.AsksForPlan | crates/hyper-vm/src/runtime.rs:538-568 | the key service is asked about the capsule's own plan and the runtime's version |
| Runtime.StepsLeave | crates/hyper-vm/src/runtime.rs:387-810 | define, pause, snapshot, stop and destroy each leave one receipt with its event, machine, runtime policy and digest of its text |
| Runtime.LaunchStepsLeave | crates/hyper-vm/src/runtime.rs:409-697 | so do verify, prepare, attach and run; the first forbidden passthrough device is named in the denial |
| Runtime.PauseBlocks | crates/hyper-vm/src/runtime.rs:699-724 | pausing blocks every vCPU and keeps memory, key, devices, NICs and manifest |
| Runtime.SnapshotNamesTheHead | crates/hyper-vm/src/runtime.rs:726-740 | the token carries the machine's id, the id of the receipt just added and that receipt's hash as head |
| Runtime.StartedRoundRobin | crates/hyper-vm/src/runtime.rs:661-666 | its scheduler serves the vCPUs in turn, each once a round |
| Runtime.LaunchAdds | crates/hyper-vm/src/runtime.rs:477-697 | a launch adds its four allow receipts in order, or exactly those up to the first of memory, key, passthrough and bus that fails; no other machine's receipts are touched |
| Runtime.VerifyAdds | crates/hyper-vm/src/runtime.rs:409-475 | verification adds a denial if the engine denies, nothing if only the launch gate refuses, an allow otherwise |
| Runtime.VerifySilentExactly | crates/hyper-vm/src/runtime.rs:422-466 | verification leaves no receipt exactly when the engine allows and the launch gate refuses |
| Runtime.LaunchSilentExactly | crates/hyper-vm/src/runtime.rs:477-536 | a launch leaves no receipt exactly when its memory cannot be had |
| Runtime.SilentRefusals | crates/hyper-vm/src/runtime.rs:422-536 | two concrete capsules that are refused without a receipt |
| Runtime.DestroyScrubs | crates/hyper-vm/src/runtime.rs:770-805 | after tear-down every frame of the guest is zeroed, nothing is mapped and the quota is free |
| Runtime.SlateRuntime.DefineVm | crates/hyper-vm/src/runtime.rs:387-407 | the definition receipt |
| Runtime.SlateRuntime.VerifyVm | crates/hyper-vm/src/runtime.rs:409-475 | policy, launch gate and receipts as specified |
| Runtime.SlateRuntime.PrepareVm | crates/hyper-vm/src/runtime.rs:477-536 | quota, table and allocation objects give the specified resources, or the specified error without a receipt |
| Runtime.SlateRuntime.UnlockVm | crates/hyper-vm/src/runtime.rs:538-568 | the key service's decision and receipt |
| Runtime.SlateRuntime.AttachVm | crates/hyper-vm/src/runtime.rs:570-649 | the first refused passthrough device decides; otherwise all devices register on the returned bus, or the bus error is returned without a receipt |
| Runtime.SlateRuntime.RunVm | crates/hyper-vm/src/runtime.rs:651-697 | every vCPU scheduled in id order, the launch receipt |
| Runtime.SlateRuntime.PauseVm | crates/hyper-vm/src/runtime.rs:699-724 | vCPUs blocked, the pause receipt |
| Runtime.SlateRuntime.SnapshotVm | crates/hyper-vm/src/runtime.rs:726-740 | the token names the new receipt and the new head |
| Runtime.SlateRuntime.StopVm | crates/hyper-vm/src/runtime.rs:742-768 | the stop receipt; resources and key kept |
| Runtime.SlateRuntime.DestroyVmResources | crates/hyper-vm/src/runtime.rs:770-805 | the loops unmap and zero everything, the quota is released, the key buffer is overwritten in place, the destroy receipt |
| Runtime.SlateRuntime.LaunchVm | crates/hyper-control/src/control.rs:346-351 | the four steps, stopping at the first error |
| Control.AdmitsExactly | crates/hyper-control/src/control.rs:92-129 | a descriptor is admitted exactly with the schema, a signature of an accepted algorithm by a listed key and both version floors met; id, image, CPU and memory are the manifest's own, and disks, NICs, passthrough, policy and key plan the descriptor's |
| Control.AdmissionErrors | crates/hyper-control/src/control.rs:92-129 | a refused descriptor names schema, manifest text, signatures, trust, hypervisor and boot policy in that order |
| Control.DescriptorRuns | crates/hyper-control/src/control.rs:286-357 | from any state, a cleared descriptor that is defined, verified and launched runs exactly if its own fields meet the launch conditions, and fails otherwise, with exactly its launch's receipts |
| Control.ForbiddenPassthroughFails | crates/hyper-control/src/control.rs:286-357 | a descriptor with passthrough under a policy that forbids it, all else in order, ends failed with five receipts, the last the denied device assignment |
| Control.GateAndAllocatorAgree | crates/hyper-control/src/control.rs:56-62 | for admitted and verified capsules only the reserved range can still refuse memory |
| Control.RefusedChangesNothing | crates/hyper-control/src/control.rs:538-560 | a refused command changes nothing at all |
| Control.RefusalsExactly | crates/hyper-control/src/control.rs:538-560 | which refusal each command gives for an unknown id, a wrong stage or a missing wipe flag |
| Control.SnapshotIsFiled | crates/hyper-control/src/control.rs:382-415 | a successful snapshot files the id and hash of the last receipt under its name; no other command files one |
| Control.FailureIsMarked | crates/hyper-control/src/control.rs:286-357 | a failed transition marks its own machine failed with the text of the error it returns, and no other |
| Control.SucceedsExactly | crates/hyper-control/src/control.rs:286-482 | each command succeeds exactly in its stage and past its gates |
| Control.OneEdgeAtATime | crates/hyper-control/src/control.rs:286-482 | a machine stays where it is or takes one edge of the lifecycle, carrying its resources and key along |
| Control.OnlyTheTargetMoves | crates/hyper-control/src/control.rs:286-482 | no id vanishes, no other machine moves, terminal stages stay |
| Control.TerminalLasts | crates/hyper-control/src/control.rs:286-482 | over every run a terminal stage lasts until the id is defined again |
| Control.RunGrows | crates/hyper-control/src/control.rs:286-482 | over every run receipts are only added |
| Control.ReachableInv | crates/hyper-control/src/control.rs:286-482 | after every run the chain verifies and each machine's receipts since its definition are exactly the script of its stage |
| Control.RunningWasAllowed | crates/hyper-control/src/control.rs:326-357 | a machine that runs or has run was allowed definition, verification, memory, key, devices and launch, in that order |
| Control.RunningPassedGates | crates/hyper-control/src/control.rs:326-357 | its resources and key come from one admitted capsule that passed every gate |
| Control.DestroyLeavesNothing | crates/hyper-control/src/control.rs:445-482 | destroying a stopped machine of any run leaves memory zeroed and unmapped, quota free, key all zero at its length |
| Control.ScriptTellsStage | crates/hyper-control/src/control.rs:139-178 | the chain alone tells the stage of every machine that has not failed |
| Control.ControlPlane.Take | crates/hyper-control/src/control.rs:538-542 | removes the stage, or reports the unknown id |
| Control.ControlPlane.PutBack | crates/hyper-control/src/control.rs:545-560 | puts the stage back and names what was found |
| Control.ControlPlane.DefineCommand | crates/hyper-control/src/control.rs:286-293 | registers one machine under the manifest's id, with the manifest's CPU and memory and all else as the descriptor has it |
| Control.ControlPlane.VerifyCommand | crates/hyper-control/src/control.rs:299-317 | the specified verify command, failures marking the machine failed |
| Control.ControlPlane.LaunchCommand | crates/hyper-control/src/control.rs:324-344 | the specified launch command |
| Control.ControlPlane.PauseCommand | crates/hyper-control/src/control.rs:356-374 | the specified pause command |
| Control.ControlPlane.SnapshotCommand | crates/hyper-control/src/control.rs:382-415 | pausing first if running; the token kept under its name |
| Control.ControlPlane.StopCommand | crates/hyper-control/src/control.rs:420-438 | the specified stop command |
| Control.ControlPlane.DestroyCommand | crates/hyper-control/src/control.rs:445-482 | looks before it takes, demands the wipe flag |
| Net.AdmittedExactly | crates/hyper-net/src/switch.rs:104-154 | over every run a flow is allowed exactly when its sandbox permits it and fewer than the limit were allowed since the last tick, on all sandboxes together |
| Net.PermittedExactly | crates/hyper-net/src/switch.rs:104-154 | which modes and rules permit a flow; only egress has a default posture |
| Net.CountersConserve | crates/hyper-net/src/sandbox.rs:93-96 | over every run each flow is counted once, as allowed or denied, on its own sandbox, and bytes follow the allows, modulo 2^64 |
| Net.WindowOverflowsExactly | crates/hyper-net/src/switch.rs:104-154 | the 32-bit window leaves its range exactly without a limit, at an allow after 2^32 - 1 more in its window |
| Net.VSwitch.EvaluateFlow | crates/hyper-net/src/switch.rs:104-154 | one step of that run on the switch and the sandbox |
| Net.VSwitch.OpenWindow | crates/hyper-net/src/switch.rs:89-91 | an empty window |
| Net.NetworkSandbox.NoteAllow | crates/hyper-net/src/sandbox.rs:93-96 | one allow and its 64 bytes |
| Net.NetworkSandbox.NoteDeny | crates/hyper-net/src/sandbox.rs:99-101 | one denial |

## Left out

- JSON parsing, pretty-printing, `Debug` output, command-line programs, schemas and scripts: input and output.
- Reply texts and most error texts: errors are values; only texts that reach a receipt are built.
- Mapping ids and run-loop steps are unbounded naturals: both count single operations in 64 bits. Debug-build panics on overflow are not modelled.
- Crypto.KdfInputInjective: requires parts whose length fits 64 bits, and under the randomness domain a first part whose length does not begin with the bytes 6F 6F 74; `RandomnessApartFromRoot` shows that this is exact for parts that are byte strings, as `kdf` takes them; that the root's first part is UTF-8 text is not used.
- Combiner.ContextBinds: requires fields that fit in memory, as every Rust string does.
- HMAC, HKDF and SHA-384 internals outside `Sha384`: arbitrary functions of fixed output length.
- The manifest sections that no decision reads are one opaque text, and the signed bytes an arbitrary function of the body.
- Typed states own their resources, so they are values; page table, quota, device graph and key handle are objects inside the transition that builds or clears them, and that a handle keeps its identity between transitions is not modelled.
- `tick` and `reset` of bus devices, MMIO trap registry, guest memory map, page-table root label: single assignments.
- The policy engine's key-release and network verdicts and network rule matching: not used by the modelled paths, or a function parameter.
- The older halves of the files that contain two versions, the security-event chain, provisioning, LUKS mapping, console, network and clock device stubs, MAC and address derivation, and the hardware crates.
