# Verified models of the boot-slot, GPT, keypad, UFS, console, patcher and boot-image code

This project models, in Dafny, the parts of the firmware repository whose correctness is
hardest to see from reading one routine, and proves what those parts are for.
`dafny verify dfyconfig.toml` checks everything. Nothing of the original program is executed.

Where the source works step by step on mutable state, the model is a class or an in-place
method, proved against a specification function; the properties are lemmas about those
functions. The parts, and the files to read in this order:

- **CRC-32 and GPT repair.** `Crc32` (the declarative CRC of section 3.2.9 of IEEE 802.3),
  `Crc32Algebra` (affine, invertible, detects bursts), `Crc32Code` (the shift-register code
  computes it), `GptFormat` (byte codecs, section 5.3 of the UEFI Specification), `FixGpt`.
- **The A/B slot engine.** `SlotTypes`, `SlotSpec` (every routine as a function on a state that
  holds the table, its shadow, the list, the boot LUN and the LUNs as bytes), `GptUpdate`,
  `CopyUpdate`, `GptSync` (the write-back), `GptBackup` (backup tables of any content),
  `GptStale` (disks on which an update fails), `SlotBits`, `SlotSwap`, `SlotInvariant`, `SlotRuns` (whole runs), `SlotSuffix` (suffixes that
  name no slot), `SlotDrivers` (the boot driver and the switch application as whole runs),
  `SlotEngine` and `SlotPrograms` (the imperative code). `Bits64`, `Division` and `Wrappers`
  are shared helpers.
- **Keypad.** `KeySpec`, `KeyCycles` (runs of polls), `KeypadDevice`, `KeyQueue`, `KeyNotify`.
- **UFS.** `UfsAlloc` (allocation units in byte-swapped words, section 14.1 of JESD220),
  `UfsCheck` (what the check accepts, where the retries end), `UfsCommand` (polling, scatter
  lists), `UfsHost`.
- **Frame buffer console.** `Glyph`, `Console`.
- **Kernel patcher.** `PatternScan`, `KernelPatches`.
- **Boot image writer.** `BootImage`, `BootImageWriter`, `RamdiskTable`, `VendorBoot`.

What the proofs show to be false of the code is stated as a lemma, with the exact condition
under which the code does what it should:

- `FixGptCRC32` assumes a 92-byte header and three blocks of entries at LBA 2; disks of any
  other geometry can be left with a wrong CRC (`FixGpt.RepairIsExact`).
- `SetActiveSlot` succeeds for two suffixes besides `_a` and `_b`, the empty one and a lone
  underscore (`SlotSuffix.SetAccepts`). It then leaves both boot slots active, and boot_b's
  priority decides which one `GetActiveSlot` returns (`SlotSuffix.SetAmbiguous`). The empty
  suffix marks blank table entries, too, which no update writes (`SlotSuffix.EmptySuffixInStep`).
- An update that meets a header whose entry array is empty or larger than 16384 bytes, as of
  256 entries of 128 bytes, returns after its shadow table has followed memory and before
  anything of that copy is written; later LUNs are skipped. If it is a primary, the change
  never reaches the disk (`GptSync.RefusedGoesStale`, `GptStale.OversizedGoesStale`), and
  `ClearUnbootable` reports success all the same (`GptStale.ClearNotStored`).
  `GptSync.UpdateSyncs` is the exact condition for agreement.
- An attribute update that meets a foreign GUID in a backup table writes the slots before it
  and misses all the others of that LUN (`GptBackup.ForeignGuidMisses`); if the GUID is a later
  entry's, that entry's attributes land in the wrong slot (`GptBackup.LaterEntryTakes`). When the
  backups agree after an update is `GptBackup.BackupsAgreeAfter`; `GptStale.ForeignInput` and
  `GptStale.DisplacedInput` make the two bad cases from any disk in step. A type
  GUID update repairs every backup, an attribute update one whose GUIDs are blank or memory's
  own (`GptBackup.GuidUpdateRepairs`, `GptBackup.AttributeUpdateRepairs`).
- `UpdatePartitionAttributes` checksums 92 bytes of the header, whatever size it declares
  (`CopyUpdate.SealingIsExact`).
- A third partition `x_?` behind `x_a` and `x_b` makes a slot switch leave that pair's type
  GUIDs as they were (`SlotSwap.ThirdSlotUndoes`; when GUIDs move is `SlotSwap.SwapNodesRearranges`).
  Base names of 30 characters and more are never switched (`SlotSwap.LongNode`).
- The swapped round-up of allocation units is wrong when the quotient's low byte is 255
  (`UfsAlloc.SwappedIncrementIs`), and editing and checking tell boot LUs by different fields
  (`UfsCheck.SurvivalIs`).
- The test of a LU without capacity is inverted: almost every size is accepted, even none at
  all, and never repaired (`UfsCheck.AnySizeAccepted`, `UfsCheck.EmptyDeviceAccepted`).
  Acceptance is worth something exactly if every LU has a capacity (`UfsCheck.CheckPins`).
- The provisioning routine returns the same value whether it succeeded or gave up
  (`UfsCheck.ConfigurePasses`).
- A newline never ends on a panel of at most two magnified text rows (`Console.NewlineFinishes`).
- `FindPattern` reports an occurrence at address 0 at the wrong place, and overlooks occurrences
  that it reaches in the middle of the pattern (`PatternScan.FindIsExact`, `PatternScan.LeftmostIsFound`,
  `KernelPatches.ReadOverlooked`).
- A key that matches n registrations makes n times n callbacks (`KeyNotify.FanOutCalls`), and
  so does every key of a run (`KeyNotify.RunFansOut`).
- A notify handle used again after its removal can remove another client's registration
  (`KeyNotify.StaleHandle`, `KeyNotify.ReusedHandle`).
- A failed `add_entry` keeps the name taken (`RamdiskTable.NamesTaken`).

## Model

| member | source | states |
|---|---|---|
| Crc32Algebra.RunIsRunBits | GPLDrivers/Drivers/Op6tSlotDxe/crc32.c:114-143 | the byte-wise register of the specification is the bit-wise one of section 3.2.9 of IEEE 802.3 fed with the message bits, lowest bit of each byte first |
| Crc32Algebra.CrcAffine | GPLDrivers/Drivers/Op6tSlotDxe/crc32.c:114-143 | for equal lengths crc(a) ^ crc(b) ^ crc(c) is the CRC of a ^ b ^ c |
| Crc32Algebra.RunBitsInjective | GPLDrivers/Drivers/Op6tSlotDxe/crc32.c:123-139 | for fixed message bits the register update loses nothing: equal end states come from equal start states |
| Crc32Algebra.BurstDetectedBits | GPLDrivers/Drivers/Op6tSlotDxe/crc32.c:114-143 | bit strings of one length that differ only inside a window of at most 32 bits, at any bit position, leave the register in different states |
| Crc32Algebra.BurstDetected | GPLDrivers/Drivers/Op6tSlotDxe/crc32.c:114-143 | byte strings that differ only within four consecutive bytes never share a CRC |
| Crc32Algebra.SingleByteDetected | GPLDrivers/Drivers/Op6tSlotDxe/crc32.c:114-143 | changing one byte always changes the CRC |
| Crc32Code.Reflect | GPLDrivers/Drivers/Op6tSlotDxe/crc32.c:97-109 | the result holds the len low bits in reverse order and nothing else, although the loop shifts a signed word |
| Crc32Code.ReflectInvolution | GPLDrivers/Drivers/Op6tSlotDxe/crc32.c:97-109 | reflecting twice restores every value that fits in len bits (so for 8 and 32) |
| Crc32Code.MsbStepReversed | GPLDrivers/Drivers/Op6tSlotDxe/crc32.c:123-139 | one round with polynomial 04C11DB7, most significant bit first, is the reversal of one round with EDB88320, least significant bit first |
| Crc32Code.CalculateCrc32 | GPLDrivers/Drivers/Op6tSlotDxe/crc32.c:114-143 | for every buffer and length the code with its shifting register returns the CRC-32 of the specification |
| FixGpt.GetResultArray | GPLDrivers/Drivers/Op6tSlotDxe/crc32.c:147-154 | the four bytes are the CRC, lowest first |
| FixGpt.FixGptCRC32 | GPLDrivers/Drivers/Op6tSlotDxe/crc32.c:23-92 | the disk afterwards is the old one with the CRC of the three entry blocks stored, then the header CRC that covers it |
| FixGpt.OnlyCrcFieldsChange | GPLDrivers/Drivers/Op6tSlotDxe/crc32.c:23-92 | only the eight bytes of the two CRC fields of LBA 1 change |
| FixGpt.GeometryKept | GPLDrivers/Drivers/Op6tSlotDxe/crc32.c:23-92 | the header words that say where the checksummed ranges lie are not touched |
| FixGpt.FixedValidates | GPLDrivers/Drivers/Op6tSlotDxe/crc32.c:23-92 | when the header declares 92 bytes and three blocks of entries at LBA 2, both CRCs validate on the final disk (section 5.3.2 of the UEFI Specification) |
| FixGpt.OtherRangeInvalid | GPLDrivers/Drivers/Op6tSlotDxe/crc32.c:23-92 | for every other declared entry range there is a disk with that header geometry that the repair leaves invalid |
| FixGpt.LongHeaderInvalid | GPLDrivers/Drivers/Op6tSlotDxe/crc32.c:23-92 | for every declared header size above 92 there is such a disk too |
| FixGpt.RepairIsExact | GPLDrivers/Drivers/Op6tSlotDxe/crc32.c:23-92 | the repair leaves all disks of a geometry valid if and only if that geometry is the assumed one |
| GptFormat.StoredLe32 | GPLDrivers/Include/Library/BootSlotLib/PartitionTableUpdate.h:132-151 | GET_LWORD_FROM_BYTE reads back what PUT_LONG stored |
| GptFormat.StoredLe64 | GPLDrivers/Include/Library/BootSlotLib/PartitionTableUpdate.h:136-161 | GET_LLWORD_FROM_BYTE reads back what PUT_LONG_LONG stored |
| GptUpdate.ScanCorrect | GPLDrivers/Library/BootSlotLib/PartitionTableUpdate.c:292-359 | one scan of an entry array, whatever it holds: which entries take a slot, and which slot each takes, is fixed by the stored GUIDs; exactly the named fields of these slots are written, the shadow table follows, the skip flag stays set if and only if nothing differed |
| GptUpdate.AlignedTakes | GPLDrivers/Library/BootSlotLib/PartitionTableUpdate.c:292-359 | if every entry of the LUN finds an acceptable GUID at the slot of its rank - always, when GUIDs are written - each takes that slot |
| CopyUpdate.CopyCorrect | GPLDrivers/Library/BootSlotLib/PartitionTableUpdate.c:268-416 | one pass over a GPT copy, whatever header and table hold: it gives up if and only if a field differs and the declared entry array is empty or above 16384 bytes, writing nothing although the shadow table has followed; otherwise every entry that takes a slot stores its fields there, slots behind the last one taken and all bytes outside fields and checksums stay, and both CRCs of a copy rewritten validate if the header declares 92 bytes; a copy without a difference is not touched |
| CopyUpdate.SealingIsExact | GPLDrivers/Library/BootSlotLib/PartitionTableUpdate.c:364-398 | sealing makes every header with given declarations, and every table, valid if and only if the declared header size is the 92 bytes checksummed |
| GptSync.LunCorrect | GPLDrivers/Library/BootSlotLib/PartitionTableUpdate.c:187-426 | primary pass and backup pass over one LUN bring the shadow of its entries up to date, and its primary unless the primary pass gives up; the routine ends there if and only if one of them gives up; a LUN without a difference is not touched; whatever headers and backup hold |
| GptSync.LunsCorrect | GPLDrivers/Library/BootSlotLib/PartitionTableUpdate.c:187-426 | the loop over LUNs: everything up to the first LUN with a refused copy is up to date, that LUN too unless its primary was refused, and everything behind it is as before |
| GptSync.UpdateSyncs | GPLDrivers/Library/BootSlotLib/PartitionTableUpdate.c:187-426 | afterwards memory, shadow and primary agree on every LUN if and only if no copy with something to write has a refused header, or the first such copy is a backup and no later LUN has a change pending; in any case no byte outside type GUIDs, attribute words and the two CRC fields has changed, and the CRCs of every copy rewritten whose header declares 92 bytes validate |
| GptSync.AcceptingUnstopped | GPLDrivers/Library/BootSlotLib/PartitionTableUpdate.c:364-374 | on disks whose headers declare entry arrays of 1 to 16384 bytes no update ends early |
| GptSync.RefusedGoesStale | GPLDrivers/Library/BootSlotLib/PartitionTableUpdate.c:364-374 | if the first copy refused is a primary and no later LUN has a change pending, memory and shadow agree but the disk does not, and every later update of any kind returns that state unchanged: the change never reaches the disk |
| GptStale.OversizedGoesStale | GPLDrivers/Library/BootSlotLib/PartitionTableUpdate.c:364-374 | the input, from any disk in step with agreeing backups: let the primary header of a partition's LUN declare 256 entries of 128 bytes; then a change of that partition's attributes stays in memory for good |
| GptStale.ClearNotStored | GPLDrivers/Library/BootSlotLib/PartitionTableUpdate.c:744-758 | on such a disk ClearUnbootable returns success although nothing is stored, now or later |
| GptBackup.UpdateWritesBackup | GPLDrivers/Library/BootSlotLib/PartitionTableUpdate.c:292-359 | if every backup GUID lets the entry pointer pass, the fields named are written to every entry's backup slot, and the backups agree with memory in them |
| GptBackup.GuidUpdateRepairs | GPLDrivers/Library/BootSlotLib/PartitionTableUpdate.c:303-329 | an update of type GUIDs repairs those of every backup table, whatever it held |
| GptBackup.AttributeUpdateRepairs | GPLDrivers/Library/BootSlotLib/PartitionTableUpdate.c:330-359 | an update of attributes repairs a backup whose GUIDs are blank or memory's own |
| GptBackup.BackupSlot | GPLDrivers/Library/BootSlotLib/PartitionTableUpdate.c:292-359 | in general, on a LUN where no pass gives up: each entry's fields stand in the backup slot it takes, as the stored GUIDs decide |
| GptBackup.BackupRest | GPLDrivers/Library/BootSlotLib/PartitionTableUpdate.c:292-359 | and backup slots behind the last one taken are as before |
| GptBackup.BackupAfter | GPLDrivers/Library/BootSlotLib/PartitionTableUpdate.c:187-426 | all LUNs, any backup content, any headers: where the update gets through the LUN, a partition's backup slot holds the fields of the entry that takes it; where it does not, or nobody takes the slot, the slot is as before |
| GptBackup.EntryAgreesAfter | GPLDrivers/Library/BootSlotLib/PartitionTableUpdate.c:187-426 | a partition's backup slot agrees with memory after an update if and only if, in the state before, whoever takes it has the same fields and, if nobody does or the update does not get there, it held them already |
| GptBackup.BackupsAgreeAfter | GPLDrivers/Library/BootSlotLib/PartitionTableUpdate.c:187-426 | so the backups agree after an update if and only if that holds of every partition on disk |
| GptBackup.ForeignGuidMisses | GPLDrivers/Library/BootSlotLib/PartitionTableUpdate.c:330-359 | a foreign GUID makes the entry pointer stick: attributes of the slots before it are written, that slot and all later ones of the LUN are missed |
| GptBackup.ForeignSlotAgrees | GPLDrivers/Library/BootSlotLib/PartitionTableUpdate.c:330-359 | what the condition of EntryAgreesAfter says behind a foreign GUID: a slot before it agrees afterwards, another one if and only if it did already |
| GptBackup.ForeignGuidAgrees | GPLDrivers/Library/BootSlotLib/PartitionTableUpdate.c:330-359 | so that LUN's backup then agrees in the attributes if and only if the slots missed held them already |
| GptBackup.LaterEntryTakes | GPLDrivers/Library/BootSlotLib/PartitionTableUpdate.c:330-359 | if that GUID is a later entry's instead, as after a switch that a backup has missed, the later entry's attributes are written into the earlier one's backup slot, which agrees afterwards if and only if both have the same |
| GptStale.ForeignInput | GPLDrivers/Library/BootSlotLib/PartitionTableUpdate.c:330-359 | the first input, from any disk in step with agreeing backups: one backup GUID overwritten by one that no partition of the LUN has, then a change of that partition's attributes does not reach its backup |
| GptStale.DisplacedInput | GPLDrivers/Library/BootSlotLib/PartitionTableUpdate.c:330-359 | the second: one backup GUID overwritten by a later partition's, then a change of that one's attributes lands in the earlier partition's backup slot |
| GptBackup.ChangeFollows | GPLDrivers/Library/BootSlotLib/PartitionTableUpdate.c:187-426 | a backup that agreed with memory before a change of the table agrees after the matching update, if no refused header ends the update |
| SlotInvariant.UpdateIdle | GPLDrivers/Library/BootSlotLib/PartitionTableUpdate.c:187-426 | an update of a state in which memory, shadow and primary agree writes nothing, so a stale backup stays stale until something changes |
| SlotRuns.LoadSyncs | GPLDrivers/Library/BootSlotLib/PartitionTableUpdate.c:65-99 | loading a readable disk puts memory, shadow and primary in step, whatever backups and headers hold |
| SlotRuns.LoadAgrees | GPLDrivers/Library/BootSlotLib/PartitionTableUpdate.c:65-99 | if the backup tables repeat the primaries, all four agree |
| SlotRuns.ReloadIdle | GPLDrivers/Library/BootSlotLib/PartitionTableUpdate.c:65-99 | reading the primary GPTs again gives back the very table in memory |
| SlotBits.ActivatedBits | GPLDrivers/Library/BootSlotLib/PartitionTableUpdate.c:907-921 | activating a slot: active, priority 3, full retries, not unbootable, successful as asked; bits outside 48 to 55 as before |
| SlotBits.DemotedBits | GPLDrivers/Library/BootSlotLib/PartitionTableUpdate.c:923-935 | the other slot: inactive, priority 2, every other field and bit as before |
| SlotBits.ClearedBits | GPLDrivers/Library/BootSlotLib/PartitionTableUpdate.c:744-758 | ClearUnbootable clears one bit, refills the retries and keeps the rest |
| SlotBits.FirstBootBits | GPLDrivers/Library/BootSlotLib/PartitionTableUpdate.c:834-846 | the first-boot default: active, priority 3, full retries, neither successful nor unbootable; other bits kept |
| SlotBits.MarkedBits | GPLDrivers/Library/BootSlotLib/PartitionTableUpdate.c:428-441 | MarkPtnActive changes the active bit and no other |
| SlotSwap.SwapNodesPermutes | GPLDrivers/Library/BootSlotLib/PartitionTableUpdate.c:443-592 | for every table, list and suffix the exchange pass only permutes type GUIDs; nothing else in the table changes |
| SlotSwap.SwapNodesRearranges | GPLDrivers/Library/BootSlotLib/PartitionTableUpdate.c:529-560 | on tables without prefix overlap an entry gets its partner's type GUID exactly if it has a partner and its base name is listed an odd number of times |
| SlotSwap.LongNode | GPLDrivers/Library/BootSlotLib/PartitionTableUpdate.c:529-560 | a base name of 30 characters or more exchanges nothing |
| SlotSwap.SwapNodesTwice | GPLDrivers/Library/BootSlotLib/PartitionTableUpdate.c:529-560 | passing twice over the same list restores every type GUID, whatever suffixes are given and whatever happens to attributes in between |
| SlotSwap.SwitchExchangesPairs | GPLDrivers/Library/BootSlotLib/PartitionTableUpdate.c:456-592 | with names in unique pairs every x_a/x_b pair is exchanged exactly once and every other entry is fixed, despite list nodes that belong to no pair |
| SlotSwap.ThirdSlotUndoes | GPLDrivers/Library/BootSlotLib/PartitionTableUpdate.c:456-502 | without that convention it fails: a third name x_? behind x_a and x_b lists the base twice and the exchange is undone |
| SlotInvariant.ClearKeeps | GPLDrivers/Library/BootSlotLib/PartitionTableUpdate.c:744-758 | keeps everything in step and the table's identity |
| SlotInvariant.GetKeeps | GPLDrivers/Library/BootSlotLib/PartitionTableUpdate.c:773-870 | keeps everything in step, on the first-boot path too |
| SlotInvariant.MarkKeeps | GPLDrivers/Library/BootSlotLib/PartitionTableUpdate.c:428-441 | keeps everything in step; the empty suffix too, unless the table has blank entries |
| SlotInvariant.SwitchKeeps | GPLDrivers/Library/BootSlotLib/PartitionTableUpdate.c:504-592 | keeps everything in step |
| SlotInvariant.SwitchRepairs | GPLDrivers/Library/BootSlotLib/PartitionTableUpdate.c:504-592 | a switch that moves some type GUID leaves memory's type GUIDs in every backup table, whatever it held |
| SlotInvariant.SetKeeps | GPLDrivers/Library/BootSlotLib/PartitionTableUpdate.c:872-976 | keeps everything in step on every path, failing ones included |
| SlotRuns.RunKeeps | GPLDrivers/Library/BootSlotLib/PartitionTableUpdate.c:65-976 | over every run of operations, on disks with any backups whose headers declare acceptable entry arrays, memory, shadow and primary agree, a reload would give the table in memory, type GUIDs are only permuted, foreign attribute bits and all other bytes stay |
| SlotRuns.RunKeepsBackups | GPLDrivers/Library/BootSlotLib/PartitionTableUpdate.c:65-976 | and backups that agreed with memory at the start agree after every run |
| SlotRuns.RunKeepsChecksums | GPLDrivers/Library/BootSlotLib/PartitionTableUpdate.c:187-426 | if all headers declare 92 bytes and all header and entry-array CRCs validate at the start, they do after every run |
| SlotRuns.SettledIsActive | GPLDrivers/Library/BootSlotLib/PartitionTableUpdate.c:773-870 | a table with one active boot slot of priority 3 and the other inactive at 2 makes GetActiveSlot return that slot and change nothing |
| SlotRuns.SetSettles | GPLDrivers/Library/BootSlotLib/PartitionTableUpdate.c:872-976 | whatever the state before, a successful SetActiveSlot leaves exactly that boot slot active, priorities 3 and 2, and on UFS the boot LUN 1 exactly for _a - on the already-active and on the switching path |
| SlotRuns.SetSucceeds | GPLDrivers/Library/BootSlotLib/PartitionTableUpdate.c:872-976 | for _a and _b it succeeds if and only if GetActiveSlot does |
| SlotRuns.SetThenGet | GPLDrivers/Library/BootSlotLib/PartitionTableUpdate.c:872-976 | after success GetActiveSlot returns the suffix given if and only if it was _a or _b |
| SlotSuffix.SetAccepts | GPLDrivers/Library/BootSlotLib/PartitionTableUpdate.c:872-976 | SetActiveSlot succeeds if and only if GetActiveSlot does and the suffix is a beginning of _a or _b: besides these the empty one and a lone underscore |
| SlotSuffix.SetAmbiguous | GPLDrivers/Library/BootSlotLib/PartitionTableUpdate.c:872-976 | for these two it leaves both boot slots active, and GetActiveSlot then succeeds with _b if boot_b had priority 3, and with _a otherwise |
| SlotSuffix.EmptySuffixInStep | GPLDrivers/Library/BootSlotLib/PartitionTableUpdate.c:428-441 | the empty suffix leaves memory and disk in step if and only if no table entry is blank |
| SlotRuns.LastSetIsActive | GPLDrivers/Library/BootSlotLib/PartitionTableUpdate.c:773-976 | in every run the slot of the last successful SetActiveSlot stays the one GetActiveSlot returns, with priorities and boot LUN settled |
| SlotDrivers.SwitchAndBack | GPLDrivers/Library/BootSlotLib/PartitionTableUpdate.c:504-976 | switching to the other slot and back restores every type GUID and the boot LUN |
| SlotDrivers.GetAgain | GPLDrivers/Library/BootSlotLib/PartitionTableUpdate.c:773-870 | asking twice gives the same answer and the same state |
| SlotDrivers.BootSlotSettles | GPLDrivers/Drivers/BootSlotDxe/BootSlotDxe.c:33-76 | when the driver's SetActiveSlot succeeds, neither boot slot is unbootable, the chosen slot is active and successful, no type GUID has moved and the boot LUN follows |
| SlotDrivers.BootSlotIdle | GPLDrivers/Drivers/BootSlotDxe/BootSlotDxe.c:33-76 | on such a table the driver returns the very state it was given: nothing is written |
| SlotDrivers.BootSlotAgain | GPLDrivers/Drivers/BootSlotDxe/BootSlotDxe.c:25-77 | a second run of the whole driver, started from the disk and boot LUN the first one left, ends in the same state |
| SlotDrivers.SwitchSlotsSucceeds | GPLDrivers/Application/SwitchSlotsApp/SwitchSlotsApp.c:24-90 | the application succeeds if and only if the device type is known, boot has two slots and one of them is active |
| SlotDrivers.SwitchSlotsRun | GPLDrivers/Application/SwitchSlotsApp/SwitchSlotsApp.c:24-90 | a successful run makes the other slot active, moves the boot LUN with it, and leaves memory and disk in step |
| SlotDrivers.SwitchSlotsToggles | GPLDrivers/Application/SwitchSlotsApp/SwitchSlotsApp.c:24-90 | two runs, each from the disk the other left, bring back the first slot, every type GUID and the boot LUN |
| SlotEngine.Engine.UpdatePartitionEntries | GPLDrivers/Library/BootSlotLib/PartitionTableUpdate.c:65-99 | the loops over LUNs and handles load exactly the table of the specification |
| SlotEngine.Engine.GetPartitionIndex | GPLDrivers/Library/BootSlotLib/PartitionTableUpdate.c:101-115 | index of the first entry of that name, or the count |
| SlotEngine.SealHeader | GPLDrivers/Library/BootSlotLib/PartitionTableUpdate.c:364-398 | the entry-array CRC is stored, then the header CRC over the header with its own field zero; refuses an empty or oversized array |
| SlotEngine.Engine.ScanEntries | GPLDrivers/Library/BootSlotLib/PartitionTableUpdate.c:292-359 | the loop with the moving pointer, the shadow table and the skip flag |
| SlotEngine.Engine.UpdatePass | GPLDrivers/Library/BootSlotLib/PartitionTableUpdate.c:268-416 | read blocks, scan, seal, write back, for primary or backup |
| SlotEngine.Engine.UpdatePartitionAttributes | GPLDrivers/Library/BootSlotLib/PartitionTableUpdate.c:187-426 | the nested loops over LUNs and copies compute the specified state |
| SlotEngine.Engine.MarkPtnActive | GPLDrivers/Library/BootSlotLib/PartitionTableUpdate.c:428-441 | the in-place loop |
| SlotEngine.Engine.SwapPtnGuid | GPLDrivers/Library/BootSlotLib/PartitionTableUpdate.c:443-454 | exchanges two type GUIDs in place; a null pointer makes it do nothing |
| SlotEngine.Engine.GetMultiSlotPartsList | GPLDrivers/Library/BootSlotLib/PartitionTableUpdate.c:456-502 | builds the list of base names, new nodes at the head |
| SlotEngine.Engine.SwapSlotGuids | GPLDrivers/Library/BootSlotLib/PartitionTableUpdate.c:529-560 | the inner loop: prefix matches, the last match of either name wins |
| SlotEngine.Engine.SwitchPtnSlots | GPLDrivers/Library/BootSlotLib/PartitionTableUpdate.c:504-592 | list, exchanges, write-back and boot LUN |
| SlotEngine.Engine.PartitionHasMultiSlot | GPLDrivers/Library/BootSlotLib/PartitionTableUpdate.c:663-681 | true exactly if more than one slot of the name exists |
| SlotEngine.Engine.GetBootPartitionEntry | GPLDrivers/Library/BootSlotLib/PartitionTableUpdate.c:683-716 | boot_a or boot_b, by a comparison that stops at the suffix's end |
| SlotEngine.Engine.IsSlotBootable | GPLDrivers/Library/BootSlotLib/PartitionTableUpdate.c:718-742 | not unbootable and successful |
| SlotEngine.Engine.ClearUnbootable | GPLDrivers/Library/BootSlotLib/PartitionTableUpdate.c:744-758 | new table, disk and status |
| SlotEngine.Engine.GetActiveSlot | GPLDrivers/Library/BootSlotLib/PartitionTableUpdate.c:773-870 | the priority scan and the first-boot default |
| SlotEngine.Engine.SetActiveSlot | GPLDrivers/Library/BootSlotLib/PartitionTableUpdate.c:872-976 | the whole state and the status |
| SlotPrograms.BootSlotMain | GPLDrivers/Drivers/BootSlotDxe/BootSlotDxe.c:25-77 | the driver run on a new engine ends in the specified status and state |
| SlotPrograms.SwitchSlotsAppEntryPoint | GPLDrivers/Application/SwitchSlotsApp/SwitchSlotsApp.c:24-90 | the application run on a new engine ends in the specified status and state |
| KeyCycles.RunsAreCycles | Silicon/Samsung/Exynos7420Pkg/Library/KeypadDeviceImplLib/KeypadDeviceImplLib.c:79-173 | over every run of polls each completed cycle reports: one key event if short; for power one of s, e, space if long; for volume nothing if power was held, otherwise n repeats with at least 500 + 200(n-1) ms of accumulated time; and no event belongs to no cycle |
| KeyCycles.PollIsPrompt | Silicon/Samsung/Exynos7420Pkg/Library/KeypadDeviceImplLib/KeypadDeviceImplLib.c:79-173 | a poll that sees the key down leaves no repeat or long press overdue, and reports exactly when one is due |
| KeyCycles.KeysAreIndependent | Silicon/Samsung/Exynos7420Pkg/Library/KeypadDeviceImplLib/KeypadDeviceImplLib.c:252-277 | each of the three keys runs as if alone, on the levels it sees of the others: those polled before it at their present level, the rest at the last one |
| KeyCycles.EmittedIs | Silicon/Samsung/Exynos7420Pkg/Library/KeypadDeviceImplLib/KeypadDeviceImplLib.c:79-173 | what a key reports over a run is what it reports poll by poll, in a row |
| KeyCycles.EventsAreTheKeys | Silicon/Samsung/Exynos7420Pkg/Library/KeypadDeviceImplLib/KeypadDeviceImplLib.c:252-277 | over every run of polls the device's events are those of its three machines, interleaved poll by poll in the order of polling |
| KeypadDevice.Device.KeySetState | Silicon/Samsung/Exynos7420Pkg/Library/KeypadDeviceImplLib/KeypadDeviceImplLib.c:37-53 | the level is remembered in the word bitmaps and no other level changes |
| KeypadDevice.Device.UpdateKeyStatus | Silicon/Samsung/Exynos7420Pkg/Library/KeypadDeviceImplLib/KeypadDeviceImplLib.c:79-173 | the in-place update of a key context is one step of the machine |
| KeypadDevice.Device.GetKeys | Silicon/Samsung/Exynos7420Pkg/Library/KeypadDeviceImplLib/KeypadDeviceImplLib.c:252-277 | one poll of all three keys |
| KeypadDevice.Device.Reset | Silicon/Samsung/Exynos7420Pkg/Library/KeypadDeviceImplLib/KeypadDeviceImplLib.c:238-250 | contexts are reset, the bitmaps are not |
| KeyQueues.PushedAllKeeps | Silicon/Samsung/ExynosPkg/Drivers/KeypadDxe/KeypadTextIn.c:63-73 | pushing one by one keeps the last 255 of all keys |
| KeyQueues.RunIsFifo | Silicon/Samsung/ExynosPkg/Drivers/KeypadDxe/KeypadTextIn.c:26-73 | in every run the queue is a suffix of what was pushed; keys popped, dropped and queued add up; without drops keys come out in the order they went in |
| KeyQueues.KeyQueue.IsEmpty | Silicon/Samsung/ExynosPkg/Drivers/KeypadDxe/KeypadTextIn.c:26-30 | true exactly for the empty queue |
| KeyQueues.KeyQueue.Pop | Silicon/Samsung/ExynosPkg/Drivers/KeypadDxe/KeypadTextIn.c:42-55 | takes the first key of the abstract sequence |
| KeyQueues.KeyQueue.Push | Silicon/Samsung/ExynosPkg/Drivers/KeypadDxe/KeypadTextIn.c:63-73 | the abstract sequence becomes the last 255 of q + [k] |
| KeyNotify.ListStaysOk | Silicon/Samsung/ExynosPkg/Drivers/KeypadDxe/KeypadTextIn.c:492-623 | after every run of registrations and removals, in which freed addresses may be used again, no later entry is matched by an earlier one with the same callback, and handles are distinct |
| KeyNotify.HandleNames | Silicon/Samsung/ExynosPkg/Drivers/KeypadDxe/KeypadTextIn.c:492-623 | after every such run the entry with a handle is the registration last made at that address, and there is none if it was removed since or never made |
| KeyNotify.StaleHandle | Silicon/Samsung/ExynosPkg/Drivers/KeypadDxe/KeypadTextIn.c:575-623 | so a handle used again after its removal removes nothing while no new entry lies there, and the other registration once one does |
| KeyNotify.ReusedHandle | Silicon/Samsung/ExynosPkg/Drivers/KeypadDxe/KeypadTextIn.c:492-623 | for every run: remove a handle, register anew at the address freed, remove the first handle once more; the list is as after the first removal |
| KeyNotify.RegisterServes | Silicon/Samsung/ExynosPkg/Drivers/KeypadDxe/KeypadTextIn.c:492-559 | no handle is returned if and only if no entry serves the registration and the allocation fails; otherwise the handle, new or existing, stands for an entry that reaches the callback for every key asked for |
| KeyNotify.UnregisterRemoves | Silicon/Samsung/ExynosPkg/Drivers/KeypadDxe/KeypadTextIn.c:575-623 | removes exactly the entry with the handle and keeps the others |
| KeyNotify.FanOutCalls | Silicon/Samsung/ExynosPkg/Drivers/KeypadDxe/Keypad.c:138-179 | whatever the notify queue holds, a key that matches n registrations leads to one entry in the read queue and, behind the calls for the keys before it, to all n calls made n times over, n squared in all; only the newest 255 copies and keys survive an overflow |
| KeyNotify.RunFansOut | Silicon/Samsung/ExynosPkg/Drivers/KeypadDxe/Keypad.c:138-179 | a run of keys pushed before the handler runs, without overflow: each let through enters the read queue once, and the handler makes the calls of every key in order, n of them n times |
| KeyNotify.SkippedDropsPartial | Silicon/Samsung/ExynosPkg/Drivers/KeypadDxe/KeypadTextIn.c:280-323 | exactly the leading partial keys are dropped, and a key remains if and only if a full one was queued |
| KeyNotify.ConsoleIn.RegisterKeyNotify | Silicon/Samsung/ExynosPkg/Drivers/KeypadDxe/KeypadTextIn.c:492-559 | new list and handle, or none if the allocation fails |
| KeyNotify.ConsoleIn.UnregisterKeyNotify | Silicon/Samsung/ExynosPkg/Drivers/KeypadDxe/KeypadTextIn.c:575-623 | new list; found exactly if the handle was in it |
| KeyNotify.ConsoleIn.PushKey | Silicon/Samsung/ExynosPkg/Drivers/KeypadDxe/Keypad.c:138-179 | both queues: one copy to the notify queue for every match, without a break |
| KeyNotify.ConsoleIn.ProcessNotify | Silicon/Samsung/ExynosPkg/Drivers/KeypadDxe/KeypadTextIn.c:631-670 | drains the notify queue and makes the specified calls in order |
| KeyNotify.ConsoleIn.TimerHandler | Silicon/Samsung/ExynosPkg/Drivers/KeypadDxe/KeypadController.c:33-64 | the keys reported by a poll are pushed one after the other, unless the keypad is in error |
| KeyNotify.ConsoleIn.WaitForKey | Silicon/Samsung/ExynosPkg/Drivers/KeypadDxe/KeypadTextIn.c:280-323 | polls the keypad, drops the leading partial keys, and signals exactly if a full key is then queued |
| UfsAlloc.SwabInvolution | Silicon/Samsung/Exynos9820Pkg/Library/ExynosUfsLib/ufs.c:1003-1010 | swapping the bytes of a word twice restores it |
| UfsAlloc.SwappedIncrementIs | Silicon/Samsung/Exynos9820Pkg/Library/ExynosUfsLib/ufs.c:1006-1010 | swab(q) + swab(1) equals swab(q + 1) if and only if q mod 256 is not 255, and stands for q - 255 otherwise |
| UfsAlloc.PassConserves | Silicon/Samsung/Exynos9820Pkg/Library/ExynosUfsLib/ufs.c:1000-1023 | whichever LU z takes the rest, the eight decoded sizes add up to the raw capacity modulo 2^32 if and only if the pass has not changed the total of the LUs below z |
| UfsAlloc.PassIs | Silicon/Samsung/Exynos9820Pkg/Library/ExynosUfsLib/ufs.c:2053-2059 | when at most LU 0 takes the rest, a pass has one result whatever it started from |
| UfsAlloc.PassForgets | Silicon/Samsung/Exynos9820Pkg/Library/ExynosUfsLib/ufs.c:2053-2059 | a pass has one result whatever it started from if and only if no LU above 0 takes the rest |
| UfsAlloc.PassFixes | Silicon/Samsung/Exynos9820Pkg/Library/ExynosUfsLib/ufs.c:2053-2059 | a pass changes nothing if and only if every LU is as wanted and, if one takes the rest, the sizes add up to the raw capacity |
| UfsAlloc.PassTwice | Silicon/Samsung/Exynos9820Pkg/Library/ExynosUfsLib/ufs.c:2053-2059 | for every wanted configuration, a second pass changes nothing if and only if the LUs below the lowest taker had their own total to begin with |
| UfsAlloc.PassThrice | Silicon/Samsung/Exynos9820Pkg/Library/ExynosUfsLib/ufs.c:2053-2059 | for every wanted configuration and every device a third pass changes nothing |
| UfsAlloc.ProvisionedTotal | Silicon/Samsung/Exynos9820Pkg/Library/ExynosUfsLib/ufs.c:1000-1023 | with LU 0 taking the rest the sizes add up to the raw units modulo 2^32, and exactly if and only if the other LUs fit |
| UfsCheck.SizedPasses | Silicon/Samsung/Exynos9820Pkg/Library/ExynosUfsLib/ufs.c:1758-1786 | what is written for a LU of given capacity passes the size test if and only if the size written is the size asked for |
| UfsCheck.SurvivalIs | Silicon/Samsung/Exynos9820Pkg/Library/ExynosUfsLib/ufs.c:1758-1786 | when boot id and memory type agree that is so unless a round-up meets a quotient with low byte 255; when they differ, exactly if the boot quotient happens to be the other size |
| UfsCheck.CheckIs | Silicon/Samsung/Exynos9820Pkg/Library/ExynosUfsLib/ufs.c:1720-1815 | exactly what the check accepts of any device: everything but sizes as wanted, the one size for a LU with a capacity, and for a LU without one any size but what the LUs from it upwards leave |
| UfsCheck.CheckPins | Silicon/Samsung/Exynos9820Pkg/Library/ExynosUfsLib/ufs.c:1720-1815 | acceptance determines the configuration if and only if every LU has a capacity |
| UfsCheck.AcceptedIsProvisioned | Silicon/Samsung/Exynos9820Pkg/Library/ExynosUfsLib/ufs.c:1720-1815 | acceptance means that the device holds what a pass would leave if and only if every LU has a capacity and every size survives |
| UfsCheck.AnySizeAccepted | Silicon/Samsung/Exynos9820Pkg/Library/ExynosUfsLib/ufs.c:1752-1757 | when LU 0 takes the rest and all else is as a pass leaves it, a size x of LU 0 is rejected if and only if 2 x is, modulo 2^32, the size it should have: at most two sizes |
| UfsCheck.WrongSizeStays | Silicon/Samsung/Exynos9820Pkg/Library/ExynosUfsLib/ufs.c:2033-2094 | so a device with almost any wrong size of LU 0 is taken for right and left as it is |
| UfsCheck.EmptyDeviceAccepted | Silicon/Samsung/Exynos9820Pkg/Library/ExynosUfsLib/ufs.c:1752-1757 | an input: 1001 units, all for LU 0, on a device that has allocated none |
| UfsCheck.CheckAfterPass | Silicon/Samsung/Exynos9820Pkg/Library/ExynosUfsLib/ufs.c:1675-1825 | what a pass writes is accepted if and only if all sizes survive, no LU without capacity hits the inverted test, and the boot LU is enabled |
| UfsCheck.ConfigurePasses | Silicon/Samsung/Exynos9820Pkg/Library/ExynosUfsLib/ufs.c:2033-2094 | when at most LU 0 takes the rest: no pass if the check accepts what is there, right or wrong; one pass, then accepted, if what is wanted is acceptable; otherwise three passes for nothing, and the same return value |
| UfsCheck.ConfigureEnds | Silicon/Samsung/Exynos9820Pkg/Library/ExynosUfsLib/ufs.c:2033-2094 | for every wanted configuration: the passes made are the fewest after which the check accepts, and if three have not been enough no number would be |
| UfsHost.Host.EditConfigDesc | Silicon/Samsung/Exynos9820Pkg/Library/ExynosUfsLib/ufs.c:967-1023 | the descriptor edited in place is the specified one |
| UfsHost.Host.EditAll | Silicon/Samsung/Exynos9820Pkg/Library/ExynosUfsLib/ufs.c:2053-2059 | the loop over LUs 7 to 0 |
| UfsHost.Host.CheckConfigDesc | Silicon/Samsung/Exynos9820Pkg/Library/ExynosUfsLib/ufs.c:1675-1825 | reads the device and returns success exactly if the check accepts |
| UfsHost.Host.SetConfigurationDescriptor | Silicon/Samsung/Exynos9820Pkg/Library/ExynosUfsLib/ufs.c:2033-2094 | what the device stores afterwards and the value returned |
| UfsCommand.PollingEnds | Silicon/Samsung/Exynos9820Pkg/Library/ExynosUfsLib/ufs.c:561-608 | for every behaviour of the device: at most timeout + 1 reads, then success or error as the last read says, or timeout if and only if all of them left it open |
| UfsHost.Host.HandleUfsInt | Silicon/Samsung/Exynos9820Pkg/Library/ExynosUfsLib/ufs.c:561-595 | verdict and counter after one reading; the counter wraps at zero |
| UfsHost.Host.PollCompletion | Silicon/Samsung/Exynos9820Pkg/Library/ExynosUfsLib/ufs.c:606-608 | the loop makes the specified reads and returns the specified verdict |
| UfsHost.Host.SendUicCmd | Silicon/Samsung/Exynos9820Pkg/Library/ExynosUfsLib/ufs.c:597-638 | verdict, failure if the verdict or the result code says so, and the word a get reads back |
| UfsHost.Host.WaitForResponse | Silicon/Samsung/Exynos9820Pkg/Library/ExynosUfsLib/ufs.c:665-683 | the same with the command timeout, ten minutes for formatting |
| UfsCommand.EntryAddress | Silicon/Samsung/Exynos9820Pkg/Library/ExynosUfsLib/ufs.c:315-325 | each entry holds the 64-bit address of its block; the next one begins where it ends |
| UfsCommand.SegmentsCover | Silicon/Samsung/Exynos9820Pkg/Library/ExynosUfsLib/ufs.c:314-318 | the list covers the buffer with less than a block to spare if and only if length + block - 1 fits 32 bits |
| UfsHost.MapSg | Silicon/Samsung/Exynos9820Pkg/Library/ExynosUfsLib/ufs.c:309-326 | fills the list, entry by entry, and leaves the rest of the table |
| Glyph.DrawGlyph | Silicon/Samsung/ExynosPkg/Library/FrameBufferSerialPortLib/FrameBufferSerialPortLib.c:165-261 | the four-deep loops with a running pointer draw exactly the magnified picture of the glyph and change nothing outside the cell |
| Glyph.LayersDraw | Silicon/Samsung/ExynosPkg/Library/FrameBufferSerialPortLib/FrameBufferSerialPortLib.c:165-261 | background, upper half and lower half laid one over the other make that picture |
| Glyph.PixelShown | Silicon/Samsung/ExynosPkg/Library/FrameBufferSerialPortLib/FrameBufferSerialPortLib.c:165-261 | pixel (r, c) has the foreground colour exactly if bit ((r/s) mod 6) * 5 + c/s of word (r/s)/6 is set, and the background colour otherwise |
| Console.NewlineFinishes | Silicon/Samsung/ExynosPkg/Library/FrameBufferSerialPortLib/FrameBufferSerialPortLib.c:99-163 | a newline is done with if and only if two magnified rows are less than the panel's rows; otherwise the goto loops for ever |
| Console.PaintingFinishes | Silicon/Samsung/ExynosPkg/Library/FrameBufferSerialPortLib/FrameBufferSerialPortLib.c:99-163 | the exact condition for every other character |
| Console.TextStaysInside | Silicon/Samsung/ExynosPkg/Library/FrameBufferSerialPortLib/FrameBufferSerialPortLib.c:95-163 | every text from the home position keeps the cursor among the reachable ones |
| Console.CellOnPanel | Silicon/Samsung/ExynosPkg/Library/FrameBufferSerialPortLib/FrameBufferSerialPortLib.c:127-133 | from every reachable cursor the cell's lines and columns lie on the panel |
| Console.CellInside | Silicon/Samsung/ExynosPkg/Library/FrameBufferSerialPortLib/FrameBufferSerialPortLib.c:127-133 | and its bytes inside the frame buffer |
| Console.LineInside | Silicon/Samsung/ExynosPkg/Library/FrameBufferSerialPortLib/FrameBufferSerialPortLib.c:155-158 | the line a newline clears lies inside the frame buffer |
| Console.WrapRepaints | Silicon/Samsung/ExynosPkg/Library/FrameBufferSerialPortLib/FrameBufferSerialPortLib.c:135-153 | a character that wraps the screen is drawn twice, at the end of the last line and at home |
| Console.TextShown | Silicon/Samsung/ExynosPkg/Library/FrameBufferSerialPortLib/FrameBufferSerialPortLib.c:95-163 | after a visible text that fits what is left of the line, every pixel of every character's cell shows that character |
| Console.FbCon.NewLine | Silicon/Samsung/ExynosPkg/Library/FrameBufferSerialPortLib/FrameBufferSerialPortLib.c:144-163 | cursor, wrap and frame buffer |
| Console.FbCon.PutChar | Silicon/Samsung/ExynosPkg/Library/FrameBufferSerialPortLib/FrameBufferSerialPortLib.c:95-163 | the goto machine ends, with the specified cursor and frame buffer |
| Console.FbCon.Write | Silicon/Samsung/ExynosPkg/Library/FrameBufferSerialPortLib/FrameBufferSerialPortLib.c:296-311 | the loop over the text: cursor and frame buffer, character by character |
| PatternScan.FindPattern | Platform/RenegadePkg/Drivers/KernelErrataPatcher/Utilities.c:27-53 | the loop over the pattern's text returns what the scan over its tokens returns, the last one a wildcard or not |
| PatternScan.FindIsMatch | Platform/RenegadePkg/Drivers/KernelErrataPatcher/Utilities.c:27-53 | every result but 0 is a true occurrence inside the range, for ranges behind address 0 |
| PatternScan.FindIsInside | Platform/RenegadePkg/Drivers/KernelErrataPatcher/Utilities.c:27-53 | for every range the pattern at a result ends inside the range, or at most one byte behind it if the range begins at address 0 |
| PatternScan.MatchAtZero | Platform/RenegadePkg/Drivers/KernelErrataPatcher/Utilities.c:27-53 | an occurrence at address 0 is reported at 1 |
| PatternScan.FindIsExact | Platform/RenegadePkg/Drivers/KernelErrataPatcher/Utilities.c:27-53 | no memory can make the result wrong if and only if the range begins behind address 0, the pattern is one token or longer than the range, or it is wildcards alone with a byte to spare |
| PatternScan.LeftmostIsFound | Platform/RenegadePkg/Drivers/KernelErrataPatcher/Utilities.c:27-53 | the leftmost occurrence is found if and only if the scan is not in the middle of the pattern when it gets there |
| PatternScan.FindIsLeftmost | Platform/RenegadePkg/Drivers/KernelErrataPatcher/Utilities.c:27-53 | if no occurrence is directly preceded by a proper non-empty prefix of the pattern, the result is the leftmost occurrence, or 0 if there is none |
| PatternScan.TextSpells | Platform/RenegadePkg/Drivers/KernelErrataPatcher/Utilities.c:27-53 | hexadecimal pairs with separators spell their bytes |
| KernelPatches.CopyMemory | Platform/RenegadePkg/Drivers/KernelErrataPatcher/Utilities.c:17-25 | overwrites one window |
| KernelPatches.ReadsPatched | Platform/RenegadePkg/Drivers/KernelErrataPatcher/KernelErrataPatcher.c:33-73 | at most three windows, in firmware at most one, disjoint, inside the range, all of which held the pattern at the start |
| KernelPatches.ReadsComplete | Platform/RenegadePkg/Drivers/KernelErrataPatcher/KernelErrataPatcher.c:33-73 | unless it stops at the third window, the patcher leaves nothing that the scan would find |
| KernelPatches.NoReadsLeft | Platform/RenegadePkg/Drivers/KernelErrataPatcher/KernelErrataPatcher.c:33-73 | if no read directly follows an unfinished one and the patcher stops before its third window, it has overwritten exactly the reads in the range, and none is left |
| KernelPatches.ReadOverlooked | Platform/RenegadePkg/Drivers/KernelErrataPatcher/KernelErrataPatcher.c:33-73 | the bytes 28 28 10 38 D5: a read that follows an unfinished one is overlooked, and nothing is patched |
| KernelPatches.OverwrittenBytes | Platform/RenegadePkg/Drivers/KernelErrataPatcher/KernelErrataPatcher.c:33-73 | each window holds the replacement, every other byte is as before |
| KernelPatches.ApplyReadACTLREL1Patches | Platform/RenegadePkg/Drivers/KernelErrataPatcher/KernelErrataPatcher.c:33-73 | terminates and overwrites exactly those windows |
| KernelPatches.ApplyWriteACTLREL1Patches | Platform/RenegadePkg/Drivers/KernelErrataPatcher/KernelErrataPatcher.c:75-103 | overwrites the place the scan finds, behind address 0 a true occurrence, or nothing |
| KernelPatches.ApplyIncoherentCacheConfigurationPatches | Platform/RenegadePkg/Drivers/KernelErrataPatcher/KernelErrataPatcher.c:105-129 | overwrites four instructions where the scan finds three, or nothing |
| KernelPatches.ApplyPsciMemoryProtectionPatches | Platform/RenegadePkg/Drivers/KernelErrataPatcher/KernelErrataPatcher.c:131-155 | overwrites the instruction 32 bytes before the place the scan finds, or nothing |
| BootImage.MaskIsRemainder | tools/mkbootimg.py:85-87 | masking with a power of two less one is the remainder, for all naturals |
| BootImage.PaddingFills | tools/mkbootimg.py:85-92 | pad_file and get_number_of_pages agree: size plus padding is the page count times the page size |
| BootImage.HeaderSizeIs | tools/mkbootimg.py:185-264 | the header-size constants of versions 1 and 2 are the bytes written before padding, and the size field holds them |
| BootImage.SectionAt | tools/mkbootimg.py:624-634 | for versions 0 to 2 every section is whole and page-aligned, where the page counts say |
| BootImage.RecoveryDtboLands | tools/mkbootimg.py:95-104 | get_recovery_dtbo_offset is the position at which write_data really puts the recovery image |
| BootImage.ReadsBack | tools/mkbootimg.py:185-264 | reading an image by the sizes in its header and page rounding alone returns every section |
| BootImage.CmdlineReadsBack | tools/mkbootimg.py:559-563 | every accepted command line, split over two fields, comes back joined |
| BootImage.OsWordUnpacks | tools/mkbootimg.py:363-390 | major, minor, patch, year and month keep to their own bits: one 32-bit word gives all five back |
| BootImageWriter.OutputFile.PadFile | tools/mkbootimg.py:85-87 | appends less than a page of zeros, up to a page boundary |
| BootImageWriter.OutputFile.WritePaddedFile | tools/mkbootimg.py:352-356 | appends the file and its padding, or nothing |
| BootImageWriter.OutputFile.WriteHeader | tools/mkbootimg.py:185-264 | the header, or the error of the first field that does not fit or of an empty DTB |
| BootImageWriter.OutputFile.WriteData | tools/mkbootimg.py:624-634 | appends the sections in order |
| BootImageWriter.OutputFile.WriteImage | tools/mkbootimg.py:660-669 | the whole image, or the error |
| RamdiskTable.RunOk | tools/mkbootimg.py:308-333 | after every run of add_entry calls, failed ones included, offsets tile 0 to the total, names are allowed and pairwise different |
| RamdiskTable.NamesTaken | tools/mkbootimg.py:313-322 | a name is taken by its first use, whether or not that call then failed |
| RamdiskTable.Accepted | tools/mkbootimg.py:313-333 | exactly when a call after a run adds an entry |
| RamdiskTable.RamdiskAt | tools/mkbootimg.py:335-339 | ramdisk k lies at its offset among the bytes written; all of them make up the total |
| RamdiskTable.EntrySize | tools/mkbootimg.py:341-349 | every entry takes the 108 bytes that the entry-size constant says |
| RamdiskTable.EntryAt | tools/mkbootimg.py:341-349 | entry k of the written table begins at 108 k |
| RamdiskTable.VendorRamdiskTableBuilder.AddEntry | tools/mkbootimg.py:308-333 | new table and error, in the order of the source's tests |
| RamdiskTable.VendorRamdiskTableBuilder.WriteRamdisksPadded | tools/mkbootimg.py:335-339 | appends the ramdisks and padding |
| RamdiskTable.VendorRamdiskTableBuilder.WriteEntriesPadded | tools/mkbootimg.py:341-349 | appends the table and padding, or fails |
| VendorBoot.VendorHeaderSizeIs | tools/mkbootimg.py:133-182 | the vendor header-size constants of versions 3 and 4 are the bytes written before padding |
| VendorBoot.VendorSectionAt | tools/mkbootimg.py:637-647 | every section of a vendor image is whole and page-aligned |
| VendorBoot.FragmentReadsBack | tools/mkbootimg.py:133-182 | from a version 4 image alone, header then table then offset, a reader gets kind, name and bytes of every ramdisk added |
| VendorBoot.WriteVendorBoot | tools/mkbootimg.py:637-659 | the whole vendor image, or the error |

## Left out

Contracts stated more narrowly than the code accepts its inputs:

- GptSync.UpdateSyncs: assumes a table read in disk order, type GUIDs whose first word is not zero, and a known device type; for an unknown device the code returns at once, which the specification function models. Headers and backup tables are arbitrary; only the validity of CRCs is for headers that declare 92 bytes (CopyUpdate.SealingIsExact says why).
- SlotRuns.RunKeeps: the headers of LUNs with partitions declare entry arrays of 1 to 16384 bytes; with others an update may end early, and GptSync.UpdateSyncs says exactly when the disk is then out of step. Names have at most 33 characters, see SlotEngine.Engine.SetActiveSlot.
- SlotRuns.LastSetIsActive: suffixes in a run, of SlotRuns.RunKeeps too, have one or two characters, as the Slot structure allows; the empty suffix is allowed if the table has no blank entries, which SlotSuffix.EmptySuffixInStep shows to be the exact condition.
- SlotEngine.Engine.SetActiveSlot: names of 34 and more characters are excluded, because the code copies their base names into buffers of 32 characters while passing their size in bytes, 64, as the bound; what lies behind such a buffer is not modelled.
- SlotInvariant.SwitchKeeps: names of at most 33 characters, for the same reason.
- SlotInvariant.SetKeeps: names of at most 33 characters, for the same reason.
- SlotRuns.SetSettles: names of at most 33 characters, for the same reason.
- SlotRuns.SetSucceeds: names of at most 33 characters, for the same reason.
- SlotRuns.SetThenGet: names of at most 33 characters, for the same reason.
- SlotSuffix.SetAccepts: names of at most 33 characters, for the same reason.
- SlotSuffix.SetAmbiguous: names of at most 33 characters, for the same reason.
- SlotSuffix.EmptySuffixInStep: names of at most 33 characters, for the same reason.
- SlotEngine.Engine.GetMultiSlotPartsList: names of at most 33 characters, for the same reason.
- SlotEngine.Engine.SwitchPtnSlots: names of at most 33 characters, for the same reason.
- SlotPrograms.BootSlotMain: names of at most 33 characters, for the same reason.
- SlotPrograms.SwitchSlotsAppEntryPoint: names of at most 33 characters, for the same reason.
- SlotEngine.Engine.UpdatePartitionAttributes: block sizes divide the entry array and the LUN, and a LUN has fewer than 2^32 blocks, because the code keeps block offsets in 32 bits.
- SlotSwap.SwitchExchangesPairs: names come in unique pairs without prefix overlap; for other tables SwapNodesPermutes says what remains true.
- UfsCheck.CheckAfterPass: for configurations in which at most LU 0 takes the rest; the result of a pass depends on the device otherwise (UfsAlloc.PassForgets), and UfsCheck.CheckIs and UfsCheck.ConfigureEnds say in general what is accepted and where the retries end.
- UfsCheck.ConfigurePasses: likewise; and queries to the device succeed and it stores what is written.
- Console.FbCon.PutChar: the class is for panels that hold a cell and more than two magnified rows, because on others a newline does not end.
- Console.FbCon.Write: the same.
- KernelPatches.ReadsPatched: for ranges behind address 0, where FindPattern is right; the patchers themselves are specified for every range.
- KernelPatches.ReadsComplete: speaks of what the scan would find; KernelPatches.NoReadsLeft of the reads themselves.
- KernelPatches.ApplyPsciMemoryProtectionPatches: an occurrence found lies at address 32 or behind; 32 is subtracted from it.
- PatternScan.FindPattern: the last token takes two characters; behind a final single question mark the code reads past the text's end.
- KeyNotify.ConsoleIn.ProcessNotify: callbacks leave the notify list as it is.
- BootImage.ReadsBack: header versions 0 to 2; versions 3 and 4 of the boot image itself and the version 4 signature are not modelled.
- VendorBoot.FragmentReadsBack: the ramdisk files do not change between add_entry and writing.

What the repository does and the model does not:

- Handle and protocol enumeration (EnumeratePartitions, GetStorageHandle): the enumerated handles, the device type and the boot LUN are parameters.
- Failures of reads and writes, of allocations except for a key registration, and null arguments.
- PartitionTableUpdate.c's GetPartitionSize and the debug output.
- The dev/ufs.h and scsi headers are not part of this model: register bits and opcodes are named, their values play no role.
- MMIO, PHY calibration, link bring-up, delays and SCSI command building in the UFS driver: register reads are arbitrary inputs; the copied header of the configuration descriptor is not modelled (the check prints its mismatches and rejects none).
- The timer arithmetic of KeypadTimerHandler: the time since the last poll is an input. The copies of the keypad library for other chips differ in pin numbers only.
- KeypadSetState, ReadKeyStroke and Reset of the console input: they add thin wrappers around the queue.
- Cache flushes, interrupt masking and critical serial output of the console.
- The context switch, module lookup and boot loader hooks around the kernel patcher: memory outside the model.
- Argument parsing, regular expressions, the SHA-1 image id (an opaque digest), avbtool and signing in mkbootimg.py.
- DxeAslUpdateLib, sosi-patcher, SMBIOS tables, memory maps, timers and the remaining drivers: they would only add easy members.
