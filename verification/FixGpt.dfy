/**
 * FixGptCRC32: GPLDrivers/Drivers/Op6tSlotDxe/crc32.c, lines 23-92 and 147-154.
 *
 * The disk is an array of bytes; reads, writes and allocations succeed.
 */
module FixGpt {
  import opened Crc32Spec
  import opened Crc32Algebra
  import opened Crc32Code
  import opened GptFormat

  const GPT_ENTRY_COUNT := 3 // blocks, as the program uses it
  const GPT_CRC32_LEN := 4

  /** A disk that holds at least the header block and the three blocks after it. */
  predicate Fits(disk: seq<Byte>, blockSize: nat) {
    HEADER_SIZE <= blockSize && (2 + GPT_ENTRY_COUNT) * blockSize <= |disk|
  }

  /** The disk after the entry-array CRC has been stored. */
  function EntryFixed(disk: seq<Byte>, blockSize: nat): (d: seq<Byte>)
    requires Fits(disk, blockSize)
    ensures |d| == |disk|
  {
    Put(disk, blockSize + ENTRIES_CRC_OFFSET, Le32(Crc32(disk[2 * blockSize..(2 + GPT_ENTRY_COUNT) * blockSize])))
  }

  /** The disk after both CRCs have been stored. */
  function Fixed(disk: seq<Byte>, blockSize: nat): (d: seq<Byte>)
    requires Fits(disk, blockSize)
    ensures |d| == |disk|
  {
    var d := EntryFixed(disk, blockSize);
    Put(d, blockSize + HEADER_CRC_OFFSET, Le32(HeaderCrc(d[blockSize..blockSize + HEADER_SIZE], HEADER_SIZE)))
  }

  method ReadDisk(disk: array<Byte>, offset: nat, size: nat) returns (buffer: array<Byte>)
    requires offset + size <= disk.Length
    ensures fresh(buffer) && buffer[..] == disk[offset..offset + size]
  {
    buffer := new Byte[size](i requires 0 <= i < size reads disk => disk[offset + i]);
  }

  method WriteDisk(disk: array<Byte>, offset: nat, buffer: array<Byte>)
    requires disk != buffer && offset + buffer.Length <= disk.Length
    modifies disk
    ensures disk[..] == Put(old(disk[..]), offset, buffer[..])
  {
    forall i | 0 <= i < buffer.Length {
      disk[offset + i] := buffer[i];
    }
  }

  function DropByte(x: bv32): bv32 {
    x >> 8
  }

  function DropBytes(x: bv32, n: nat): bv32 {
    if n == 0 then x else DropByte(DropBytes(x, n - 1))
  }

  lemma DropTwice(x: bv32)
    ensures DropByte(x) == x >> 8
    ensures DropByte(x >> 8) == x >> 16
    ensures DropByte(x >> 16) == x >> 24
  {
  }

  lemma Le32At(x: bv32, i: nat)
    requires i < 4
    ensures Le32(x)[i] == LowByte(DropBytes(x, i))
  {
    DropTwice(x);
    hide LowByte, DropByte;
    assert DropBytes(x, 1) == DropByte(DropBytes(x, 0));
    assert DropBytes(x, 2) == DropByte(DropBytes(x, 1));
    assert DropBytes(x, 3) == DropByte(DropBytes(x, 2));
  }

  /** get_result_array: the CRC as four bytes, lowest first. */
  method GetResultArray(crc: bv32, res: array<Byte>)
    requires res.Length == GPT_CRC32_LEN
    modifies res
    ensures res[..] == Le32(crc)
  {
    hide Le32, LowByte, DropByte;
    var regs := crc;
    for i := 0 to 4
      invariant regs == DropBytes(crc, i)
      invariant forall k :: 0 <= k < i ==> res[k] == Le32(crc)[k]
    {
      Le32At(crc, i);
      res[i] := LowByte(regs);
      regs := DropByte(regs);
    }
    assert res[..] == Le32(crc);
  }

  /** The loop that sets the header copy's own CRC field to zero. */
  method ClearHeaderCrc(bufGptHeader: array<Byte>)
    requires bufGptHeader.Length == HEADER_SIZE
    modifies bufGptHeader
    ensures bufGptHeader[..] == Put(old(bufGptHeader[..]), HEADER_CRC_OFFSET, ZERO4)
  {
    for i := HEADER_CRC_OFFSET to HEADER_CRC_OFFSET + GPT_CRC32_LEN
      invariant forall k :: 0 <= k < HEADER_SIZE ==>
        bufGptHeader[k] == if HEADER_CRC_OFFSET <= k < i then 0 else old(bufGptHeader[k])
    {
      bufGptHeader[i] := 0;
    }
  }

  /** Stores the entry-array CRC, then the header CRC that covers it. */
  method FixGptCRC32(disk: array<Byte>, blockSize: nat)
    requires Fits(disk[..], blockSize)
    modifies disk
    ensures disk[..] == Fixed(old(disk[..]), blockSize)
  {
    hide Crc32, Le32, Put;
    var crc32Entry := new Byte[GPT_CRC32_LEN];
    var crc32Header := new Byte[GPT_CRC32_LEN];
    var bufGptEntry := ReadDisk(disk, 2 * blockSize, GPT_ENTRY_COUNT * blockSize);
    var crc := CalculateCrc32(bufGptEntry, GPT_ENTRY_COUNT * blockSize);
    assert bufGptEntry[..GPT_ENTRY_COUNT * blockSize] == bufGptEntry[..];
    GetResultArray(crc, crc32Entry);
    WriteDisk(disk, blockSize + ENTRIES_CRC_OFFSET, crc32Entry);
    assert disk[..] == EntryFixed(old(disk[..]), blockSize);

    var bufGptHeader := ReadDisk(disk, blockSize, HEADER_SIZE);
    ghost var header := bufGptHeader[..];
    ClearHeaderCrc(bufGptHeader);
    assert header[..HEADER_SIZE] == header;
    assert bufGptHeader[..HEADER_SIZE] == bufGptHeader[..];
    crc := CalculateCrc32(bufGptHeader, HEADER_SIZE);
    GetResultArray(crc, crc32Header);
    WriteDisk(disk, blockSize + HEADER_CRC_OFFSET, crc32Header);
  }

  /** Only the two CRC fields of the header block change: eight bytes. */
  lemma OnlyCrcFieldsChange(disk: seq<Byte>, blockSize: nat, i: nat)
    requires Fits(disk, blockSize) && i < |disk|
    requires !(blockSize + HEADER_CRC_OFFSET <= i < blockSize + HEADER_CRC_OFFSET + GPT_CRC32_LEN)
    requires !(blockSize + ENTRIES_CRC_OFFSET <= i < blockSize + ENTRIES_CRC_OFFSET + GPT_CRC32_LEN)
    ensures Fixed(disk, blockSize)[i] == disk[i]
  {
  }

  function HeaderBlock(disk: seq<Byte>, blockSize: nat): seq<Byte>
    requires Fits(disk, blockSize)
  {
    disk[blockSize..2 * blockSize]
  }

  /** The header block's words that say where the checksummed ranges lie. */
  datatype Geometry = Geometry(headerSize: nat, entriesLba: nat, count: nat, size: nat)

  function GeometryOf(disk: seq<Byte>, blockSize: nat): Geometry
    requires Fits(disk, blockSize)
  {
    var h := HeaderBlock(disk, blockSize);
    Geometry(GetLe32(h, HEADER_SIZE_OFFSET) as nat, GetLe64(h, ENTRIES_LBA_OFFSET) as nat,
             GetLe32(h, ENTRY_COUNT_OFFSET) as nat, GetLe32(h, ENTRY_SIZE_OFFSET) as nat)
  }

  /** The ranges lie on the disk as the UEFI Specification demands: a header of 92 bytes up to a block, entries behind it. */
  predicate WellPlaced(g: Geometry, blockSize: nat, diskSize: nat) {
    && HEADER_SIZE <= g.headerSize <= blockSize
    && 2 <= g.entriesLba
    && g.entriesLba * blockSize + g.count * g.size <= diskSize
  }

  function EntryArray(disk: seq<Byte>, blockSize: nat, g: Geometry): seq<Byte>
    requires WellPlaced(g, blockSize, |disk|)
  {
    disk[g.entriesLba * blockSize..g.entriesLba * blockSize + g.count * g.size]
  }

  /** Both checksums validate (section 5.3.2 of the UEFI Specification). */
  ghost predicate DiskValid(disk: seq<Byte>, blockSize: nat, g: Geometry)
    requires Fits(disk, blockSize) && WellPlaced(g, blockSize, |disk|)
  {
    var h := HeaderBlock(disk, blockSize);
    && GetLe32(h, ENTRIES_CRC_OFFSET) == Crc32(EntryArray(disk, blockSize, g))
    && GetLe32(h, HEADER_CRC_OFFSET) == HeaderCrc(h, g.headerSize)
  }

  /** What the program checksums is what the header declares. */
  predicate DeclaredAsAssumed(g: Geometry, blockSize: nat) {
    g.headerSize == HEADER_SIZE && g.entriesLba == 2 && g.count * g.size == GPT_ENTRY_COUNT * blockSize
  }

  /** The words the program stores. */
  lemma StoredWords(disk: seq<Byte>, blockSize: nat)
    requires Fits(disk, blockSize)
    ensures var d := Fixed(disk, blockSize);
            var h := HeaderBlock(d, blockSize);
            && GetLe32(h, ENTRIES_CRC_OFFSET) == Crc32(disk[2 * blockSize..5 * blockSize])
            && GetLe32(h, HEADER_CRC_OFFSET) == HeaderCrc(h, HEADER_SIZE)
  {
    hide Crc32, Le32, GetLe32, Put;
    var e := EntryFixed(disk, blockSize);
    var d := Fixed(disk, blockSize);
    var h := HeaderBlock(d, blockSize);
    var entryCrc := Le32(Crc32(disk[2 * blockSize..5 * blockSize]));
    var headerCrc := Le32(HeaderCrc(e[blockSize..blockSize + HEADER_SIZE], HEADER_SIZE));
    var at, at' := blockSize + ENTRIES_CRC_OFFSET, blockSize + HEADER_CRC_OFFSET;
    PutReads(disk, at, entryCrc);
    PutKeeps(e, at', headerCrc, at, at + 4);
    PutReads(e, at', headerCrc);
    SliceOfSlice(d, blockSize, 2 * blockSize, ENTRIES_CRC_OFFSET, ENTRIES_CRC_OFFSET + 4);
    SliceOfSlice(d, blockSize, 2 * blockSize, HEADER_CRC_OFFSET, HEADER_CRC_OFFSET + 4);
    StoredLe32(h, ENTRIES_CRC_OFFSET, Crc32(disk[2 * blockSize..5 * blockSize]));
    StoredLe32(h, HEADER_CRC_OFFSET, HeaderCrc(e[blockSize..blockSize + HEADER_SIZE], HEADER_SIZE));
    SliceOfSlice(d, blockSize, 2 * blockSize, 0, HEADER_SIZE);
    var was := e[blockSize..blockSize + HEADER_SIZE];
    assert was[..HEADER_SIZE] == was;
    PutInSlice(e, at', headerCrc, blockSize, blockSize + HEADER_SIZE);
    PutTwice(was, HEADER_CRC_OFFSET, headerCrc, ZERO4);
  }

  /** The geometry words are not touched. */
  lemma GeometryKept(disk: seq<Byte>, blockSize: nat)
    requires Fits(disk, blockSize)
    ensures GeometryOf(Fixed(disk, blockSize), blockSize) == GeometryOf(disk, blockSize)
  {
    hide Fixed, GetLe32, GetLe64;
    var h, h' := HeaderBlock(disk, blockSize), HeaderBlock(Fixed(disk, blockSize), blockSize);
    forall i | 0 <= i < blockSize && !(16 <= i < 20) && !(88 <= i < 92)
      ensures h[i] == h'[i]
    {
      OnlyCrcFieldsChange(disk, blockSize, blockSize + i);
    }
    SameField32(h, h', HEADER_SIZE_OFFSET);
    SameField64(h, h', ENTRIES_LBA_OFFSET);
    SameField32(h, h', ENTRY_COUNT_OFFSET);
    SameField32(h, h', ENTRY_SIZE_OFFSET);
  }

  /** When the declared ranges are the assumed ones, the repaired disk validates. */
  lemma FixedValidates(disk: seq<Byte>, blockSize: nat, g: Geometry)
    requires Fits(disk, blockSize) && WellPlaced(g, blockSize, |disk|) && DeclaredAsAssumed(g, blockSize)
    ensures DiskValid(Fixed(disk, blockSize), blockSize, g)
  {
    hide Crc32, Le32, GetLe32, HeaderCrc, Fixed;
    StoredWords(disk, blockSize);
    var d := Fixed(disk, blockSize);
    forall i | 2 * blockSize <= i < 5 * blockSize
      ensures d[i] == disk[i]
    {
      OnlyCrcFieldsChange(disk, blockSize, i);
    }
    assert d[2 * blockSize..5 * blockSize] == disk[2 * blockSize..5 * blockSize];
  }

  predicate InRange(i: int, from: int, to: int) {
    from <= i < to
  }

  /** Two ranges, the first non-empty, that differ are told apart by some position. */
  lemma RangesDiffer(a: nat, b: nat, c: nat, d: nat) returns (i: nat)
    requires a < b && c <= d && (a != c || b != d)
    ensures InRange(i, a, b) != InRange(i, c, d)
  {
    if c == d {
      i := a;
    } else if a != c {
      i := if a < c then a else c;
      if InRange(i, a, b) == InRange(i, c, d) {
        assert false;
      }
    } else {
      i := if b < d then b else d;
    }
  }

  lemma ByteFlip(x: Byte)
    ensures x ^ 1 != x
  {
  }

  /** Changing a byte inside a range changes the range's CRC; changing one outside does not. */
  lemma CrcOfRange(d: seq<Byte>, i: nat, x: Byte, from: nat, to: nat)
    requires i < |d| && x != d[i] && from <= to <= |d|
    ensures (Crc32(d[i := x][from..to]) != Crc32(d[from..to])) == InRange(i, from, to)
  {
    hide Crc32;
    if InRange(i, from, to) {
      assert d[i := x][from..to] == d[from..to][i - from := x];
      SingleByteDetected(d[from..to], i - from, x);
    } else {
      assert d[i := x][from..to] == d[from..to];
    }
  }

  /** Changing a byte behind the header's words keeps the geometry. */
  lemma GeometryIgnores(disk: seq<Byte>, blockSize: nat, i: nat, x: Byte)
    requires Fits(disk, blockSize) && blockSize + HEADER_SIZE <= i < |disk|
    ensures GeometryOf(disk[i := x], blockSize) == GeometryOf(disk, blockSize)
  {
    hide GetLe32, GetLe64;
    var h, h' := HeaderBlock(disk, blockSize), HeaderBlock(disk[i := x], blockSize);
    SameField32(h, h', HEADER_SIZE_OFFSET);
    SameField64(h, h', ENTRIES_LBA_OFFSET);
    SameField32(h, h', ENTRY_COUNT_OFFSET);
    SameField32(h, h', ENTRY_SIZE_OFFSET);
  }

  /** If the declared entry range is another one, some disk with the same geometry is left invalid. */
  lemma OtherRangeInvalid(disk: seq<Byte>, blockSize: nat, g: Geometry) returns (bad: seq<Byte>)
    requires Fits(disk, blockSize) && g == GeometryOf(disk, blockSize) && WellPlaced(g, blockSize, |disk|)
    requires g.entriesLba != 2 || g.count * g.size != GPT_ENTRY_COUNT * blockSize
    ensures |bad| == |disk| && GeometryOf(bad, blockSize) == g
    ensures !DiskValid(Fixed(bad, blockSize), blockSize, g)
  {
    hide Crc32, Le32, GetLe32, HeaderCrc, Fixed, GeometryOf;
    var from, to := g.entriesLba * blockSize, g.entriesLba * blockSize + g.count * g.size;
    SameProduct(g.entriesLba, blockSize);
    var i := RangesDiffer(2 * blockSize, 5 * blockSize, from, to);
    ByteFlip(disk[i]);
    var other := disk[i := disk[i] ^ 1];
    GeometryIgnores(disk, blockSize, i, disk[i] ^ 1);
    CrcOfRange(disk, i, disk[i] ^ 1, from, to);
    CrcOfRange(disk, i, disk[i] ^ 1, 2 * blockSize, 5 * blockSize);
    EntriesUntouched(disk, blockSize, from, to);
    EntriesUntouched(other, blockSize, from, to);
    StoredWords(disk, blockSize);
    StoredWords(other, blockSize);
    bad := if DiskValid(Fixed(disk, blockSize), blockSize, g) then other else disk;
  }

  lemma SameProduct(lba: nat, blockSize: nat)
    requires 0 < blockSize && 2 <= lba
    ensures lba * blockSize == 2 * blockSize <==> lba == 2
    ensures lba * blockSize >= 2 * blockSize
  {
    if lba > 2 {
      assert lba * blockSize == 2 * blockSize + (lba - 2) * blockSize;
    }
  }

  lemma EntriesUntouched(disk: seq<Byte>, blockSize: nat, from: nat, to: nat)
    requires Fits(disk, blockSize) && 2 * blockSize <= from <= to <= |disk|
    ensures Fixed(disk, blockSize)[from..to] == disk[from..to]
  {
    hide Fixed;
    forall i | from <= i < to
      ensures Fixed(disk, blockSize)[i] == disk[i]
    {
      OnlyCrcFieldsChange(disk, blockSize, i);
    }
  }

  /** If the declared header is longer than 92 bytes, some disk with the same geometry is left invalid. */
  lemma LongHeaderInvalid(disk: seq<Byte>, blockSize: nat, g: Geometry) returns (bad: seq<Byte>)
    requires Fits(disk, blockSize) && g == GeometryOf(disk, blockSize) && WellPlaced(g, blockSize, |disk|)
    requires g.headerSize != HEADER_SIZE
    ensures |bad| == |disk| && GeometryOf(bad, blockSize) == g
    ensures !DiskValid(Fixed(bad, blockSize), blockSize, g)
  {
    hide Crc32, Le32, GetLe32, Fixed, GeometryOf;
    var i := blockSize + HEADER_SIZE;
    var x := disk[i] ^ 1;
    ByteFlip(disk[i]);
    var other := disk[i := x];
    GeometryIgnores(disk, blockSize, i, x);
    StoredWords(disk, blockSize);
    StoredWords(other, blockSize);
    FixedCommutes(disk, blockSize, x);
    var h := HeaderBlock(Fixed(disk, blockSize), blockSize);
    var h' := HeaderBlock(Fixed(other, blockSize), blockSize);
    assert h' == h[HEADER_SIZE := x] && h[HEADER_SIZE] == disk[i] by {
      OnlyCrcFieldsChange(disk, blockSize, i);
    }
    var z := Put(h[..g.headerSize], HEADER_CRC_OFFSET, ZERO4);
    assert Put(h'[..g.headerSize], HEADER_CRC_OFFSET, ZERO4) == z[HEADER_SIZE := x];
    SingleByteDetected(z, HEADER_SIZE, x);
    assert h'[..HEADER_SIZE] == h[..HEADER_SIZE];
    bad := if DiskValid(Fixed(disk, blockSize), blockSize, g) then other else disk;
  }

  /** A write before byte i does not see it. */
  lemma PutBefore(s: seq<Byte>, off: nat, b: seq<Byte>, i: nat, x: Byte)
    requires off + |b| <= i < |s|
    ensures Put(s[i := x], off, b) == Put(s, off, b)[i := x]
  {
    hide Put;
    var t, u := Put(s[i := x], off, b), Put(s, off, b)[i := x];
    assert forall k :: 0 <= k < |s| ==> t[k] == u[k];
  }

  lemma SliceWithout(s: seq<Byte>, i: nat, x: Byte, from: nat, to: nat)
    requires i < |s| && from <= to <= |s| && !(from <= i < to)
    ensures s[i := x][from..to] == s[from..to]
  {
  }

  /** A byte behind the 92 header bytes and before the entries does not influence the entry CRC. */
  lemma EntryFixedCommutes(disk: seq<Byte>, blockSize: nat, x: Byte)
    requires Fits(disk, blockSize) && HEADER_SIZE < blockSize
    ensures EntryFixed(disk[blockSize + HEADER_SIZE := x], blockSize) == EntryFixed(disk, blockSize)[blockSize + HEADER_SIZE := x]
  {
    hide Crc32, Le32, Put;
    var i, to := blockSize + HEADER_SIZE, (2 + GPT_ENTRY_COUNT) * blockSize;
    SliceWithout(disk, i, x, 2 * blockSize, to);
    PutBefore(disk, blockSize + ENTRIES_CRC_OFFSET, Le32(Crc32(disk[2 * blockSize..to])), i, x);
  }

  /** Nor the repair. */
  lemma FixedCommutes(disk: seq<Byte>, blockSize: nat, x: Byte)
    requires Fits(disk, blockSize) && HEADER_SIZE < blockSize
    ensures Fixed(disk[blockSize + HEADER_SIZE := x], blockSize) == Fixed(disk, blockSize)[blockSize + HEADER_SIZE := x]
  {
    hide Crc32, Le32, HeaderCrc, EntryFixed, Put;
    var i, d := blockSize + HEADER_SIZE, EntryFixed(disk, blockSize);
    EntryFixedCommutes(disk, blockSize, x);
    SliceWithout(d, i, x, blockSize, i);
    PutBefore(d, blockSize + HEADER_CRC_OFFSET, Le32(HeaderCrc(d[blockSize..i], HEADER_SIZE)), i, x);
  }

  /**
   * The repair leaves every disk of a given geometry valid exactly when the header
   * declares a 92-byte header and three blocks of entries behind it.
   */
  lemma RepairIsExact(disk: seq<Byte>, blockSize: nat, g: Geometry)
    requires Fits(disk, blockSize) && g == GeometryOf(disk, blockSize) && WellPlaced(g, blockSize, |disk|)
    ensures (forall d: seq<Byte> :: |d| == |disk| && GeometryOf(d, blockSize) == g ==> DiskValid(Fixed(d, blockSize), blockSize, g))
            <==> DeclaredAsAssumed(g, blockSize)
  {
    hide Fixed, GeometryOf, DiskValid;
    if DeclaredAsAssumed(g, blockSize) {
      forall d: seq<Byte> | |d| == |disk| && GeometryOf(d, blockSize) == g
        ensures DiskValid(Fixed(d, blockSize), blockSize, g)
      {
        FixedValidates(d, blockSize, g);
      }
    } else if g.headerSize != HEADER_SIZE {
      var bad := LongHeaderInvalid(disk, blockSize, g);
    } else {
      var bad := OtherRangeInvalid(disk, blockSize, g);
    }
  }
}
