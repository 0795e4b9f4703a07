/**
 * The data of the A/B slot engine: partition entries, attribute words, names and LUNs.
 * GPLDrivers/Include/Library/BootSlotLib/PartitionTableUpdate.h.
 */
module SlotTypes {
  import opened Crc32Spec
  import opened GptFormat
  import opened Bits64

  // ---- strings of 16-bit characters, without their terminator ----

  type Char16 = c: int | 0 <= c < 0x1_0000

  type Str16 = seq<Char16>

  const UNDERSCORE: Char16 := 0x5F
  const LETTER_A: Char16 := 0x61
  const LETTER_B: Char16 := 0x62
  const SUFFIX_A: Str16 := [UNDERSCORE, LETTER_A]
  const SUFFIX_B: Str16 := [UNDERSCORE, LETTER_B]
  const BOOT: Str16 := [0x62, 0x6F, 0x6F, 0x74]
  const BOOT_A: Str16 := BOOT + SUFFIX_A
  const BOOT_B: Str16 := BOOT + SUFFIX_B

  /** StrnCmp(s, p, StrLen(p)) == 0. */
  predicate HasPrefix(s: Str16, p: Str16) {
    |p| <= |s| && s[..|p|] == p
  }

  /** StrStr(s, p) != NULL. */
  predicate Contains(s: Str16, p: Str16) {
    exists k :: 0 <= k <= |s| - |p| && HasPrefix(s[k..], p)
  }

  // ---- partition entries ----

  type Guid = g: seq<Byte> | |g| == 16 witness [0, 0, 0, 0, 0, 0, 0, 0, 0, 0, 0, 0, 0, 0, 0, 0]

  const NO_GUID: Guid := [0, 0, 0, 0, 0, 0, 0, 0, 0, 0, 0, 0, 0, 0, 0, 0]

  /** The GUID's first 32-bit word, Data1, is zero. */
  predicate Data1Zero(g: Guid) {
    g[..4] == ZERO4
  }

  /**
   * An entry of the in-memory table.  The extent field holds what the engine carries
   * along unread: the unique GUID and the first and last block.
   */
  datatype Entry = Entry(typeGuid: Guid, extent: seq<Byte>, attributes: bv64, name: Str16, lun: nat)

  const NO_EXTENT: seq<Byte> := [0, 0, 0, 0, 0, 0, 0, 0, 0, 0, 0, 0, 0, 0, 0, 0, 0, 0, 0, 0, 0, 0, 0, 0, 0, 0, 0, 0, 0, 0, 0, 0]

  function Blank(lun: nat): Entry {
    Entry(NO_GUID, NO_EXTENT, 0, [], lun)
  }

  const MAX_NUM_PARTITIONS := 128
  const PARTITION_ENTRY_SIZE := 128
  const MAX_PARTITION_ENTRIES_SZ := 16384
  const EXTENT_OFFSET := 16
  const ATTRIBUTE_FLAG_OFFSET := 48
  const NAME_OFFSET := 56

  /** The characters of an on-disk name before its first zero. */
  function NameFrom(b: seq<Byte>, at: nat, end: nat): Str16
    requires at <= end <= |b|
    decreases end - at
  {
    if at + 2 > end || (b[at] == 0 && b[at + 1] == 0) then []
    else [(b[at] as int) + 256 * (b[at + 1] as int)] + NameFrom(b, at + 2, end)
  }

  /** The entry stored at byte offset at. */
  function Decode(b: seq<Byte>, at: nat, lun: nat): Entry
    requires at + PARTITION_ENTRY_SIZE <= |b|
  {
    Entry(b[at..at + 16], b[at + EXTENT_OFFSET..at + ATTRIBUTE_FLAG_OFFSET], GetLe64(b, at + ATTRIBUTE_FLAG_OFFSET),
          NameFrom(b, at + NAME_OFFSET, at + PARTITION_ENTRY_SIZE), lun)
  }

  // ---- attribute words ----

  const PRIORITY_VAL: bv64 := 0x0003_0000_0000_0000
  const ACTIVE_VAL: bv64 := 0x0004_0000_0000_0000
  const MAX_RETRY_COUNT_VAL: bv64 := 0x0038_0000_0000_0000
  const SUCCESSFUL_VAL: bv64 := 0x0040_0000_0000_0000
  const UNBOOTABLE_VAL: bv64 := 0x0080_0000_0000_0000
  const SLOT_BITS: bv64 := 0x00FF_0000_0000_0000

  function Priority(a: bv64): bv64 {
    Field(a, PRIORITY_VAL) >> 48
  }

  predicate Active(a: bv64) {
    Field(a, ACTIVE_VAL) != 0
  }

  predicate Successful(a: bv64) {
    Field(a, SUCCESSFUL_VAL) != 0
  }

  predicate Unbootable(a: bv64) {
    Field(a, UNBOOTABLE_VAL) != 0
  }

  /** The retry count is at its maximum. */
  predicate FullRetry(a: bv64) {
    Field(a, MAX_RETRY_COUNT_VAL) == MAX_RETRY_COUNT_VAL
  }

  /** The bits the slot engine must leave alone. */
  function OtherBits(a: bv64): bv64 {
    Field(a, !SLOT_BITS)
  }

  // ---- storage ----

  datatype Device = Emmc | Ufs | UnknownDevice

  /** A logical unit: not configured, or an array of blocks with a GPT at either end. */
  datatype Lun = Unconfigured | Lun(blockSize: nat, bytes: seq<Byte>)

  /** Both GPT copies fit without overlap. */
  predicate LunOk(l: Lun) {
    l.Lun? ==> HEADER_SIZE <= l.blockSize && 3 * l.blockSize + 2 * MAX_PARTITION_ENTRIES_SZ <= |l.bytes|
  }

  /** Blocks divide the LUN and the entry array evenly, and block numbers fit 32 bits. */
  predicate BlocksOk(l: Lun) {
    l.Lun? ==>
      && 0 < l.blockSize && MAX_PARTITION_ENTRIES_SZ % l.blockSize == 0 && |l.bytes| % l.blockSize == 0
      && |l.bytes| / l.blockSize < 0x1_0000_0000
  }

  /** Where a GPT copy's header and entry array start, as byte offsets into the LUN. */
  function HeaderAt(l: Lun, backup: bool): nat
    requires l.Lun? && LunOk(l)
  {
    if backup then |l.bytes| - l.blockSize else l.blockSize
  }

  function TableAt(l: Lun, backup: bool): nat
    requires l.Lun? && LunOk(l)
  {
    if backup then |l.bytes| - l.blockSize - MAX_PARTITION_ENTRIES_SZ else 2 * l.blockSize
  }

  function SlotAt(l: Lun, backup: bool, k: nat): (at: nat)
    requires l.Lun? && LunOk(l) && k < MAX_NUM_PARTITIONS
    ensures at + PARTITION_ENTRY_SIZE <= |l.bytes|
  {
    TableAt(l, backup) + PARTITION_ENTRY_SIZE * k
  }

  /** A block device handle of a LUN: the LUN itself, or the partition in some slot of its primary table. */
  datatype Handle = NoRecord | Record(slot: nat)

  datatype Place = Place(lun: nat, handle: Handle)

  /** The result codes the engine returns. */
  datatype Status = Success | NotFound | Unsupported | NotReady

  /** What UpdatePartitionAttributes is asked to write; the values 1, 2 and 3 of UPDATE_TYPE. */
  datatype UpdateType = UpdateType(attributes: bool, guid: bool)

  const PARTITION_ATTRIBUTES := UpdateType(true, false)
  const PARTITION_GUID := UpdateType(false, true)
  const PARTITION_ALL := UpdateType(true, true)
}
