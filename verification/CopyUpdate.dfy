/**
 * What one pass of UpdatePartitionAttributes does to a LUN: fields written, checksums
 * renewed, everything else untouched (PartitionTableUpdate.c, lines 268-416).
 */
module CopyUpdate {
  import Crc32Algebra
  import opened Crc32Spec
  import opened GptFormat
  import opened SlotTypes
  import opened SlotSpec
  import opened GptUpdate

  function Header(l: Lun, backup: bool): (h: seq<Byte>)
    requires l.Lun? && LunOk(l)
    ensures |h| == l.blockSize
  {
    l.bytes[HeaderAt(l, backup)..HeaderAt(l, backup) + l.blockSize]
  }

  function Table(l: Lun, backup: bool): (t: seq<Byte>)
    requires l.Lun? && LunOk(l)
    ensures |t| == MAX_PARTITION_ENTRIES_SZ
  {
    l.bytes[TableAt(l, backup)..TableAt(l, backup) + MAX_PARTITION_ENTRIES_SZ]
  }

  /** The header declares for itself the 92 bytes that are checksummed. */
  predicate PlainHeader(header: seq<Byte>) {
    HEADER_SIZE <= |header| && WordAt(header, HEADER_SIZE_OFFSET) == HEADER_SIZE
  }

  /** Both checksums of a GPT copy validate (section 5.3.2 of the UEFI Specification). */
  ghost predicate Sound(header: seq<Byte>, table: seq<Byte>) {
    && HeaderValid(header)
    && TableBytes(header) <= |table|
    && GetLe32(header, ENTRIES_CRC_OFFSET) == Crc32(table[..TableBytes(header)])
  }

  ghost predicate CopySound(l: Lun, backup: bool)
    requires l.Lun? && LunOk(l)
  {
    Sound(Header(l, backup), Table(l, backup))
  }

  /** A byte position, counted from the header's start, inside one of the two CRC fields. */
  predicate InCrc(d: int) {
    16 <= d < 20 || 88 <= d < 92
  }

  // ---- sealing ----

  lemma SealedFrame(header: seq<Byte>, table: seq<Byte>)
    requires HEADER_SIZE <= |header| && TableBytes(header) <= |table|
    ensures forall d :: 0 <= d < |header| && !InCrc(d) ==> Sealed(header, table)[d] == header[d]
  {
    hide Crc32, Le32, TableBytes;
  }

  lemma SealedWords(header: seq<Byte>, table: seq<Byte>)
    requires HEADER_SIZE <= |header| && TableBytes(header) <= |table|
    ensures var h := Sealed(header, table);
      && GetLe32(h, ENTRIES_CRC_OFFSET) == Crc32(table[..TableBytes(header)])
      && GetLe32(h, HEADER_CRC_OFFSET) == HeaderCrc(h, HEADER_SIZE)
  {
    hide Crc32, Le32, GetLe32, TableBytes, Put;
    var entriesCrc := Crc32(table[..TableBytes(header)]);
    var h1 := Put(header, ENTRIES_CRC_OFFSET, Le32(entriesCrc));
    var h2 := Put(h1, HEADER_CRC_OFFSET, Le32(0));
    var headerCrc := Crc32(h2[..HEADER_SIZE]);
    var h := Put(h2, HEADER_CRC_OFFSET, Le32(headerCrc));
    PutReads(header, ENTRIES_CRC_OFFSET, Le32(entriesCrc));
    PutKeeps(h1, HEADER_CRC_OFFSET, Le32(0), ENTRIES_CRC_OFFSET, ENTRIES_CRC_OFFSET + 4);
    PutKeeps(h2, HEADER_CRC_OFFSET, Le32(headerCrc), ENTRIES_CRC_OFFSET, ENTRIES_CRC_OFFSET + 4);
    StoredLe32(h, ENTRIES_CRC_OFFSET, entriesCrc);
    PutReads(h2, HEADER_CRC_OFFSET, Le32(headerCrc));
    StoredLe32(h, HEADER_CRC_OFFSET, headerCrc);
    LeZero();
    PutInPrefix(h2, HEADER_CRC_OFFSET, Le32(headerCrc), HEADER_SIZE);
    PutTwice(h2[..HEADER_SIZE], HEADER_CRC_OFFSET, Le32(headerCrc), ZERO4);
    PutInPrefix(h1, HEADER_CRC_OFFSET, Le32(0), HEADER_SIZE);
    PutTwice(h1[..HEADER_SIZE], HEADER_CRC_OFFSET, ZERO4, ZERO4);
  }

  lemma LeZero()
    ensures Le32(0) == ZERO4
  {
  }

  lemma PutInPrefix(s: seq<Byte>, off: nat, b: seq<Byte>, end: nat)
    requires off + |b| <= end <= |s|
    ensures Put(s, off, b)[..end] == Put(s[..end], off, b)
  {
  }

  lemma SameWord(s: seq<Byte>, t: seq<Byte>, off: nat)
    requires off + 4 <= |s| && off + 4 <= |t|
    requires forall i :: off <= i < off + 4 ==> s[i] == t[i]
    ensures WordAt(s, off) == WordAt(t, off)
  {
    hide GetLe32;
    SameField32(s, t, off);
  }

  /** The declarations survive sealing. */
  lemma SealedDeclares(header: seq<Byte>, table: seq<Byte>)
    requires HEADER_SIZE <= |header| && TableBytes(header) <= |table|
    ensures WordAt(Sealed(header, table), HEADER_SIZE_OFFSET) == WordAt(header, HEADER_SIZE_OFFSET)
    ensures TableBytes(Sealed(header, table)) == TableBytes(header)
  {
    hide Sealed, WordAt;
    SealedFrame(header, table);
    SameWord(header, Sealed(header, table), HEADER_SIZE_OFFSET);
    SameWord(header, Sealed(header, table), ENTRY_COUNT_OFFSET);
    SameWord(header, Sealed(header, table), ENTRY_SIZE_OFFSET);
  }

  /** A sealed copy is sound. */
  lemma SealedSound(header: seq<Byte>, table: seq<Byte>)
    requires PlainHeader(header) && TableBytesOk(header) && |table| == MAX_PARTITION_ENTRIES_SZ
    ensures Sound(Sealed(header, table), table)
  {
    hide Sealed, TableBytes, GetLe32, HeaderCrc, Crc32;
    SealedWords(header, table);
    SealedDeclares(header, table);
  }

  /** Headers of the same length with the same declarations. */
  predicate SameDeclarations(header: seq<Byte>, h: seq<Byte>)
    requires HEADER_SIZE <= |header|
  {
    && |h| == |header| && TableBytes(h) == TableBytes(header)
    && WordAt(h, HEADER_SIZE_OFFSET) == WordAt(header, HEADER_SIZE_OFFSET)
  }

  /** Whatever else a header with these declarations and a table hold, sealing makes them sound. */
  ghost predicate SealingWorks(header: seq<Byte>)
    requires HEADER_SIZE <= |header| && TableBytesOk(header)
  {
    forall h, t: seq<Byte> :: SameDeclarations(header, h) && |t| == MAX_PARTITION_ENTRIES_SZ ==> Sound(Sealed(h, t), t)
  }

  /** A byte behind the 92 that are checksummed is not looked at. */
  lemma SealedCommutes(header: seq<Byte>, table: seq<Byte>, i: nat, x: Byte)
    requires HEADER_SIZE <= i < |header| && TableBytes(header) <= |table|
    ensures SameDeclarations(header, header[i := x])
    ensures Sealed(header[i := x], table) == Sealed(header, table)[i := x]
  {
    hide Crc32, Le32, GetLe32;
    var other := header[i := x];
    SameWord(header, other, HEADER_SIZE_OFFSET);
    SameWord(header, other, ENTRY_COUNT_OFFSET);
    SameWord(header, other, ENTRY_SIZE_OFFSET);
    var crc := Le32(Crc32(table[..TableBytes(header)]));
    var h2 := Put(Put(header, ENTRIES_CRC_OFFSET, crc), HEADER_CRC_OFFSET, Le32(0));
    assert Put(Put(other, ENTRIES_CRC_OFFSET, crc), HEADER_CRC_OFFSET, Le32(0)) == h2[i := x];
    assert h2[i := x][..HEADER_SIZE] == h2[..HEADER_SIZE];
  }

  /** Two longer headers that differ in byte 92 alone are not both valid when sealed. */
  lemma LongHeaderFails(header: seq<Byte>, table: seq<Byte>, x: Byte)
    requires HEADER_SIZE < |header| && TableBytes(header) <= |table|
    requires HEADER_SIZE < WordAt(header, HEADER_SIZE_OFFSET) <= |header| && x != header[HEADER_SIZE]
    ensures !HeaderValid(Sealed(header, table)) || !HeaderValid(Sealed(header[HEADER_SIZE := x], table))
  {
    hide Crc32, Le32, GetLe32, Sealed, TableBytes;
    var size := WordAt(header, HEADER_SIZE_OFFSET);
    SealedCommutes(header, table, HEADER_SIZE, x);
    SealedFrame(header, table);
    SealedDeclares(header, table);
    SealedDeclares(header[HEADER_SIZE := x], table);
    var h := Sealed(header, table);
    var h' := h[HEADER_SIZE := x];
    SameField32(h, h', HEADER_CRC_OFFSET);
    var z := Put(h[..size], HEADER_CRC_OFFSET, ZERO4);
    assert Put(h'[..size], HEADER_CRC_OFFSET, ZERO4) == z[HEADER_SIZE := x];
    Crc32Algebra.SingleByteDetected(z, HEADER_SIZE, x);
  }

  /** Sealing works for all headers of given declarations exactly if these declare 92 bytes. */
  lemma SealingIsExact(header: seq<Byte>)
    requires HEADER_SIZE <= |header| && TableBytesOk(header)
    ensures SealingWorks(header) <==> WordAt(header, HEADER_SIZE_OFFSET) == HEADER_SIZE
  {
    hide Crc32, GetLe32, Sealed, TableBytes, HeaderCrc;
    var size := WordAt(header, HEADER_SIZE_OFFSET);
    if size == HEADER_SIZE {
      forall h, t: seq<Byte> | SameDeclarations(header, h) && |t| == MAX_PARTITION_ENTRIES_SZ
        ensures Sound(Sealed(h, t), t)
      {
        SealedSound(h, t);
      }
    } else {
      var t: seq<Byte> := seq(MAX_PARTITION_ENTRIES_SZ, _ => 0);
      SealedDeclares(header, t);
      if HEADER_SIZE < size <= |header| {
        var x: Byte := if header[HEADER_SIZE] == 0 then 1 else 0;
        LongHeaderFails(header, t, x);
        SealedCommutes(header, t, HEADER_SIZE, x);
      }
      assert SameDeclarations(header, header);
    }
  }

  // ---- one pass over a LUN ----

  /** The scan over a GPT copy, with positions in the LUN ... */
  function LunJob(mem: seq<Entry>, count: nat, lun: nat, ut: UpdateType, l: Lun, backup: bool): (j: Job)
    requires count <= |mem| == MAX_NUM_PARTITIONS && l.Lun? && LunOk(l)
    ensures JobOk(j) && j.count == count
    ensures TableAt(l, backup) + MAX_PARTITION_ENTRIES_SZ <= |j.buf|
  {
    Job(mem, count, lun, ut, l.bytes, TableAt(l, backup))
  }

  /** ... and in the blocks read. */
  function RegionJob(mem: seq<Entry>, count: nat, lun: nat, ut: UpdateType, l: Lun, backup: bool): (j: Job)
    requires count <= |mem| == MAX_NUM_PARTITIONS && l.Lun? && LunOk(l)
    ensures JobOk(j) && j.count == count
  {
    Job(mem, count, lun, ut, Region(l, backup), TableIn(l, backup))
  }

  /** The bytes of a LUN outside the fields of one copy. */
  ghost predicate CopyFrame(l: Lun, l': Lun, backup: bool)
    requires l.Lun? && LunOk(l) && l'.Lun? && |l'.bytes| == |l.bytes|
  {
    forall x :: 0 <= x < |l.bytes| && !InField(x - TableAt(l, backup)) && !InCrc(x - HeaderAt(l, backup)) ==>
      l'.bytes[x] == l.bytes[x]
  }

  /** Entry k after a pass: if it took a slot, its fields stand there and its shadow follows; otherwise its shadow is as before. */
  ghost predicate SlotDone(j: Job, bak: seq<Entry>, bytes: seq<Byte>, bak': seq<Entry>, k: nat)
    requires JobOk(j) && |bytes| == |j.buf| && |bak| == |bak'| == MAX_NUM_PARTITIONS && k < MAX_NUM_PARTITIONS
  {
    if k < j.count && Takes(j, k) then
      var at := SlotFor(j, k);
      && GuidAt(bytes, at) == (if j.ut.guid then j.mem[k].typeGuid else GuidAt(j.buf, at))
      && AttributesAt(bytes, at) == (if j.ut.attributes then j.mem[k].attributes else AttributesAt(j.buf, at))
      && bak'[k] == Shadowed(bak[k], j.mem[k], GuidAt(j.buf, at), AttributesAt(j.buf, at), j.ut)
    else bak'[k] == bak[k]
  }

  /** The shadow of entry k after a pass. */
  ghost predicate ShadowDone(j: Job, bak: seq<Entry>, bak': seq<Entry>, k: nat)
    requires JobOk(j) && |bak| == |bak'| == MAX_NUM_PARTITIONS && k < MAX_NUM_PARTITIONS
  {
    bak'[k] == if k < j.count && Takes(j, k) then
      Shadowed(bak[k], j.mem[k], GuidAt(j.buf, SlotFor(j, k)), AttributesAt(j.buf, SlotFor(j, k)), j.ut)
    else bak[k]
  }

  /** Slots behind the last one taken are as before. */
  ghost predicate RestKept(j: Job, bytes: seq<Byte>)
    requires JobOk(j) && |bytes| == |j.buf|
  {
    forall x :: SlotFor(j, j.count) <= x < j.table + MAX_PARTITION_ENTRIES_SZ && x < |bytes| ==> bytes[x] == j.buf[x]
  }

  /** What a pass leaves behind; the checksums of a copy that was written validate if its header declares 92 bytes. */
  ghost predicate CopyDone(mem: seq<Entry>, bak: seq<Entry>, count: nat, lun: nat, ut: UpdateType, l: Lun, backup: bool, f: Flow)
    requires count <= |mem| == |bak| == |f.bak| == MAX_NUM_PARTITIONS && l.Lun? && LunOk(l)
    requires f.lun.Lun? && LunOk(f.lun) && f.lun.blockSize == l.blockSize && |f.lun.bytes| == |l.bytes|
  {
    var j := LunJob(mem, count, lun, ut, l, backup);
    && !f.exit
    && (forall k :: 0 <= k < MAX_NUM_PARTITIONS ==> SlotDone(j, bak, f.lun.bytes, f.bak, k))
    && RestKept(j, f.lun.bytes)
    && CopyFrame(l, f.lun, backup)
    && (f.lun == l || (PlainHeader(Header(l, backup)) ==> CopySound(f.lun, backup)))
  }

  /** What a pass leaves behind when it gives up over the header: nothing is written, but the shadows follow. */
  ghost predicate CopyStopped(mem: seq<Entry>, bak: seq<Entry>, count: nat, lun: nat, ut: UpdateType, l: Lun, backup: bool, f: Flow)
    requires count <= |mem| == |bak| == |f.bak| == MAX_NUM_PARTITIONS && l.Lun? && LunOk(l)
  {
    && f.exit && f.lun == l
    && forall k :: 0 <= k < MAX_NUM_PARTITIONS ==> ShadowDone(LunJob(mem, count, lun, ut, l, backup), bak, f.bak, k)
  }

  /** A field read in the region is the field in the LUN. */
  lemma RegionSlot(l: Lun, backup: bool, at: nat)
    requires l.Lun? && LunOk(l) && at + PARTITION_ENTRY_SIZE <= l.blockSize + MAX_PARTITION_ENTRIES_SZ
    ensures GuidAt(Region(l, backup), at) == GuidAt(l.bytes, RegionAt(l, backup) + at)
    ensures AttributesAt(Region(l, backup), at) == AttributesAt(l.bytes, RegionAt(l, backup) + at)
  {
    hide GetLe64, RegionAt;
    var r := RegionAt(l, backup);
    SliceOfSlice(l.bytes, r, r + l.blockSize + MAX_PARTITION_ENTRIES_SZ, at, at + 16);
    FieldInSlice(l.bytes, r, r + l.blockSize + MAX_PARTITION_ENTRIES_SZ, at + 48);
  }

  lemma FieldInSlice(s: seq<Byte>, base: nat, end: nat, off: nat)
    requires base <= end <= |s| && off + 8 <= end - base
    ensures GetLe64(s[base..end], off) == GetLe64(s, base + off)
  {
    assert forall i :: 0 <= i < end - base ==> s[base..end][i] == s[base + i];
  }

  /** Header and table lie in the region. */
  lemma RegionParts(l: Lun, backup: bool)
    requires l.Lun? && LunOk(l)
    ensures HeaderAt(l, backup) == RegionAt(l, backup) + HeaderIn(l, backup)
    ensures TableAt(l, backup) == RegionAt(l, backup) + TableIn(l, backup)
    ensures HeaderIn(l, backup) + l.blockSize <= l.blockSize + MAX_PARTITION_ENTRIES_SZ
    ensures TableIn(l, backup) + MAX_PARTITION_ENTRIES_SZ <= l.blockSize + MAX_PARTITION_ENTRIES_SZ
  {
  }

  /** Where things lie depends on the LUN's size alone. */
  lemma SamePlaces(l: Lun, l': Lun, backup: bool)
    requires l.Lun? && LunOk(l) && l'.Lun? && l'.blockSize == l.blockSize && |l'.bytes| == |l.bytes|
    ensures LunOk(l') && RegionAt(l', backup) == RegionAt(l, backup)
    ensures HeaderIn(l', backup) == HeaderIn(l, backup) && TableIn(l', backup) == TableIn(l, backup)
  {
  }

  /** The header and table are slices of the region. */
  lemma SlicesOfRegion(l: Lun, backup: bool)
    requires l.Lun? && LunOk(l)
    ensures var buf, h, t := Region(l, backup), HeaderIn(l, backup), TableIn(l, backup);
      && h + l.blockSize <= |buf| && t + MAX_PARTITION_ENTRIES_SZ <= |buf|
      && Header(l, backup) == buf[h..h + l.blockSize]
      && Table(l, backup) == buf[t..t + MAX_PARTITION_ENTRIES_SZ]
  {
    RegionParts(l, backup);
    hide HeaderAt, TableAt, RegionAt, HeaderIn, TableIn;
    var r, h, t := RegionAt(l, backup), HeaderIn(l, backup), TableIn(l, backup);
    SliceOfSlice(l.bytes, r, r + l.blockSize + MAX_PARTITION_ENTRIES_SZ, h, h + l.blockSize);
    SliceOfSlice(l.bytes, r, r + l.blockSize + MAX_PARTITION_ENTRIES_SZ, t, t + MAX_PARTITION_ENTRIES_SZ);
  }

  /** A whole region written into a LUN reads back. */
  lemma WrittenRegion(l: Lun, backup: bool, buf: seq<Byte>)
    requires l.Lun? && LunOk(l) && |buf| == l.blockSize + MAX_PARTITION_ENTRIES_SZ
    ensures var l' := l.(bytes := Put(l.bytes, RegionAt(l, backup), buf));
      && LunOk(l') && Region(l', backup) == buf
      && Header(l', backup) == buf[HeaderIn(l, backup)..HeaderIn(l, backup) + l.blockSize]
      && Table(l', backup) == buf[TableIn(l, backup)..TableIn(l, backup) + MAX_PARTITION_ENTRIES_SZ]
  {
    hide Put, HeaderAt, TableAt, RegionAt, HeaderIn, TableIn, Header, Table, LunOk;
    var l' := l.(bytes := Put(l.bytes, RegionAt(l, backup), buf));
    PutReads(l.bytes, RegionAt(l, backup), buf);
    SamePlaces(l, l', backup);
    SlicesOfRegion(l', backup);
  }

  /** The header in a copy's buffer makes acceptable declarations. */
  predicate BufDeclares(l: Lun, backup: bool, buf: seq<Byte>)
    requires l.Lun? && LunOk(l) && |buf| == l.blockSize + MAX_PARTITION_ENTRIES_SZ
  {
    TableBytesOk(buf[HeaderIn(l, backup)..HeaderIn(l, backup) + l.blockSize])
  }

  lemma BufTable(l: Lun, backup: bool, buf: seq<Byte>)
    requires l.Lun? && LunOk(l) && |buf| == l.blockSize + MAX_PARTITION_ENTRIES_SZ
    requires BufDeclares(l, backup, buf)
    ensures TableBytes(buf[HeaderIn(l, backup)..HeaderIn(l, backup) + l.blockSize]) <= MAX_PARTITION_ENTRIES_SZ
  {
    hide WordAt, Times;
  }

  /** The buffer scanned and sealed: the LUN afterwards. */
  function Written(l: Lun, backup: bool, buf: seq<Byte>): (w: Lun)
    requires l.Lun? && LunOk(l) && |buf| == l.blockSize + MAX_PARTITION_ENTRIES_SZ
    requires BufDeclares(l, backup, buf)
    ensures w.Lun? && w.blockSize == l.blockSize && |w.bytes| == |l.bytes|
  {
    l.(bytes := Put(l.bytes, RegionAt(l, backup), SealedRegion(l, backup, buf)))
  }

  lemma SealedRegionParts(l: Lun, backup: bool, buf: seq<Byte>)
    requires l.Lun? && LunOk(l) && |buf| == l.blockSize + MAX_PARTITION_ENTRIES_SZ
    requires BufDeclares(l, backup, buf)
    ensures var b := SealedRegion(l, backup, buf);
      var h, t := HeaderIn(l, backup), TableIn(l, backup);
      && (PlainHeader(buf[h..h + l.blockSize]) ==> Sound(b[h..h + l.blockSize], b[t..t + MAX_PARTITION_ENTRIES_SZ]))
      && (forall x :: 0 <= x < |buf| && !InCrc(x - h) ==> b[x] == buf[x])
  {
    hide Sealed, TableBytes, WordAt, Sound, Put, GetLe32, Crc32;
    var h, t := HeaderIn(l, backup), TableIn(l, backup);
    var header, table := buf[h..h + l.blockSize], buf[t..t + MAX_PARTITION_ENTRIES_SZ];
    if PlainHeader(header) {
      SealedSound(header, table);
    }
    SealedFrame(header, table);
    PutReads(buf, h, Sealed(header, table));
    PutKeeps(buf, h, Sealed(header, table), t, t + MAX_PARTITION_ENTRIES_SZ);
    var b := SealedRegion(l, backup, buf);
    forall x | 0 <= x < |buf| && !InCrc(x - h)
      ensures b[x] == buf[x]
    {
      if h <= x < h + l.blockSize {
        assert b[x] == Sealed(header, table)[x - h];
        assert header[x - h] == buf[x];
      }
    }
  }

  lemma WrittenSound(l: Lun, backup: bool, buf: seq<Byte>)
    requires l.Lun? && LunOk(l) && |buf| == l.blockSize + MAX_PARTITION_ENTRIES_SZ
    requires BufDeclares(l, backup, buf)
    ensures LunOk(Written(l, backup, buf))
    ensures PlainHeader(buf[HeaderIn(l, backup)..HeaderIn(l, backup) + l.blockSize]) ==> CopySound(Written(l, backup, buf), backup)
  {
    hide Times, WordAt, GetLe32, GetLe64, Le32, Crc32, Put;
    hide Sound, SealedRegion, PlainHeader, Put, TableBytes;
    BufTable(l, backup, buf);
    SealedRegionParts(l, backup, buf);
    WrittenRegion(l, backup, SealedRegion(l, backup, buf));
  }

  /** A byte of the LUN afterwards: the buffer's where no CRC field lies, the old one outside the region. */
  lemma WrittenByte(l: Lun, backup: bool, buf: seq<Byte>, x: nat)
    requires l.Lun? && LunOk(l) && |buf| == l.blockSize + MAX_PARTITION_ENTRIES_SZ && x < |l.bytes|
    requires BufDeclares(l, backup, buf)
    requires !InCrc(x - HeaderAt(l, backup))
    ensures var r := RegionAt(l, backup);
      Written(l, backup, buf).bytes[x] == if r <= x < r + |buf| then buf[x - r] else l.bytes[x]
  {
    hide Times, WordAt, GetLe32, GetLe64, Le32, Crc32, Put;
    hide Sound, SealedRegion, PlainHeader, InCrc, TableBytes;
    SealedRegionParts(l, backup, buf);
    assert x - RegionAt(l, backup) - HeaderIn(l, backup) == x - HeaderAt(l, backup);
  }

  lemma RegionByte(l: Lun, backup: bool, d: nat)
    requires l.Lun? && LunOk(l) && d < l.blockSize + MAX_PARTITION_ENTRIES_SZ
    ensures Region(l, backup)[d] == l.bytes[RegionAt(l, backup) + d]
  {
  }

  lemma WrittenFrame(l: Lun, backup: bool, buf: seq<Byte>)
    requires l.Lun? && LunOk(l) && |buf| == l.blockSize + MAX_PARTITION_ENTRIES_SZ
    requires BufDeclares(l, backup, buf)
    requires forall x :: 0 <= x < |buf| && !InField(x - TableIn(l, backup)) ==> buf[x] == Region(l, backup)[x]
    ensures CopyFrame(l, Written(l, backup, buf), backup)
  {
    hide InField, InCrc, Region, BufDeclares, Written;
    var r, l' := RegionAt(l, backup), Written(l, backup, buf);
    forall x | 0 <= x < |l.bytes| && !InField(x - TableAt(l, backup)) && !InCrc(x - HeaderAt(l, backup))
      ensures l'.bytes[x] == l.bytes[x]
    {
      WrittenByte(l, backup, buf, x);
      if r <= x < r + |buf| {
        var d := x - r;
        assert d - TableIn(l, backup) == x - TableAt(l, backup);
        RegionByte(l, backup, d);
        assert r + d == x;
      }
    }
  }

  lemma WrittenSlot(l: Lun, backup: bool, buf: seq<Byte>, at: nat)
    requires l.Lun? && LunOk(l) && |buf| == l.blockSize + MAX_PARTITION_ENTRIES_SZ
    requires BufDeclares(l, backup, buf)
    requires TableIn(l, backup) <= at && at + PARTITION_ENTRY_SIZE <= TableIn(l, backup) + MAX_PARTITION_ENTRIES_SZ
    ensures var l' := Written(l, backup, buf);
      && RegionAt(l, backup) + at + PARTITION_ENTRY_SIZE <= |l'.bytes|
      && GuidAt(l'.bytes, RegionAt(l, backup) + at) == GuidAt(buf, at)
      && AttributesAt(l'.bytes, RegionAt(l, backup) + at) == AttributesAt(buf, at)
  {
    hide Times, WordAt, GetLe32, GetLe64, Le32, Crc32, Put, Sound, SealedRegion, PlainHeader, TableBytes;
    BufTable(l, backup, buf);
    var b, l' := SealedRegion(l, backup, buf), Written(l, backup, buf);
    SealedRegionParts(l, backup, buf);
    WrittenRegion(l, backup, b);
    RegionSlot(l', backup, at);
    SameSlot(b, buf, at);
  }

  /** The header block is not touched by the scan. */
  lemma ScanKeepsHeader(l: Lun, backup: bool, buf: seq<Byte>)
    requires l.Lun? && LunOk(l) && |buf| == l.blockSize + MAX_PARTITION_ENTRIES_SZ
    requires forall x :: 0 <= x < |buf| && !InField(x - TableIn(l, backup)) ==> buf[x] == Region(l, backup)[x]
    ensures buf[HeaderIn(l, backup)..HeaderIn(l, backup) + l.blockSize] == Header(l, backup)
  {
    var h := HeaderIn(l, backup);
    forall x | h <= x < h + l.blockSize
      ensures buf[x] == l.bytes[RegionAt(l, backup) + x]
    {
      assert !InField(x - TableIn(l, backup));
      assert Region(l, backup)[x] == l.bytes[RegionAt(l, backup) + x];
    }
  }

  /** The region's slots are the LUN's, and the same entries take them. */
  lemma {:induction false} SameTaken(mem: seq<Entry>, count: nat, lun: nat, ut: UpdateType, l: Lun, backup: bool, n: nat)
    requires count <= |mem| == MAX_NUM_PARTITIONS && l.Lun? && LunOk(l) && n <= count
    ensures var j, r := LunJob(mem, count, lun, ut, l, backup), RegionJob(mem, count, lun, ut, l, backup);
      && Taken(r, n) == Taken(j, n) && SlotFor(j, n) == RegionAt(l, backup) + SlotFor(r, n)
      && (n < count ==> (Takes(r, n) <==> Takes(j, n)))
      && (n < count ==> GuidAt(r.buf, SlotFor(r, n)) == GuidAt(j.buf, SlotFor(j, n)))
      && (n < count ==> AttributesAt(r.buf, SlotFor(r, n)) == AttributesAt(j.buf, SlotFor(j, n)))
  {
    hide GetLe64, GuidAt, AttributesAt, Selected, Passes, Region, RegionAt, TableAt, TableIn;
    var j, r := LunJob(mem, count, lun, ut, l, backup), RegionJob(mem, count, lun, ut, l, backup);
    RegionParts(l, backup);
    if n > 0 {
      SameTaken(mem, count, lun, ut, l, backup, n - 1);
    }
    if n < count {
      RegionSlot(l, backup, SlotFor(r, n));
    }
  }

  /** A scan of the blocks of a copy. */
  ghost predicate CopyScanned(mem: seq<Entry>, bak: seq<Entry>, count: nat, lun: nat, ut: UpdateType, l: Lun, backup: bool, s: Scan)
    requires count <= |mem| == |bak| == MAX_NUM_PARTITIONS && l.Lun? && LunOk(l)
  {
    && |s.buf| == l.blockSize + MAX_PARTITION_ENTRIES_SZ && |s.bak| == MAX_NUM_PARTITIONS
    && Scanned(RegionJob(mem, count, lun, ut, l, backup), 0, Scan(Region(l, backup), TableIn(l, backup), bak, true), s)
  }

  lemma CopyScans(mem: seq<Entry>, bak: seq<Entry>, count: nat, lun: nat, device: Device, ut: UpdateType, l: Lun, backup: bool)
    requires count <= |mem| == |bak| == MAX_NUM_PARTITIONS && l.Lun? && LunOk(l)
    requires Ordered(mem, count, lun, device)
    ensures var s := ScanFrom(mem, count, 0, lun, device, ut, Scan(Region(l, backup), TableIn(l, backup), bak, true));
      && CopyScanned(mem, bak, count, lun, ut, l, backup, s)
      && (forall x :: 0 <= x < |s.buf| && !InField(x - TableIn(l, backup)) ==> s.buf[x] == Region(l, backup)[x])
      && (s.skip <==> !Dirty(LunJob(mem, count, lun, ut, l, backup)))
  {
    hide Region, InField, Ordered, Scanned, ScanFrom, Dirty;
    WholeScan(RegionJob(mem, count, lun, ut, l, backup), device, bak);
    RegionDirty(mem, count, lun, ut, l, backup);
  }

  lemma RegionDirty(mem: seq<Entry>, count: nat, lun: nat, ut: UpdateType, l: Lun, backup: bool)
    requires count <= |mem| == MAX_NUM_PARTITIONS && l.Lun? && LunOk(l)
    ensures Dirty(RegionJob(mem, count, lun, ut, l, backup)) <==> Dirty(LunJob(mem, count, lun, ut, l, backup))
  {
    hide Writes, LunJob, RegionJob;
    forall k | 0 <= k < count
      ensures Writes(RegionJob(mem, count, lun, ut, l, backup), k) <==> Writes(LunJob(mem, count, lun, ut, l, backup), k)
    {
      RegionWrites(mem, count, lun, ut, l, backup, k);
    }
  }

  lemma RegionWrites(mem: seq<Entry>, count: nat, lun: nat, ut: UpdateType, l: Lun, backup: bool, k: nat)
    requires count <= |mem| == MAX_NUM_PARTITIONS && l.Lun? && LunOk(l) && k < count
    ensures Writes(RegionJob(mem, count, lun, ut, l, backup), k) <==> Writes(LunJob(mem, count, lun, ut, l, backup), k)
  {
    hide GuidAt, AttributesAt, Differs, Takes, SlotFor, Region, TableIn, TableAt;
    SameTaken(mem, count, lun, ut, l, backup, k);
  }

  /**
   * One pass, whatever the copy holds: it gives up exactly if there is something to write
   * and the header's entry array is refused; without anything to write nothing changes.
   */
  lemma CopyCorrect(mem: seq<Entry>, bak: seq<Entry>, count: nat, lun: nat, device: Device, ut: UpdateType, l: Lun, backup: bool)
    requires count <= |mem| == |bak| == MAX_NUM_PARTITIONS && l.Lun? && LunOk(l)
    requires Ordered(mem, count, lun, device)
    ensures var j := LunJob(mem, count, lun, ut, l, backup);
      var f := UpdateCopy(mem, bak, count, lun, device, ut, l, backup);
      && (if Dirty(j) && !TableBytesOk(Header(l, backup)) then CopyStopped(mem, bak, count, lun, ut, l, backup, f)
          else CopyDone(mem, bak, count, lun, ut, l, backup, f))
      && (!Dirty(j) ==> f == Flow(l, bak, false))
  {
    hide Times, WordAt, GetLe32, TableBytes, GetLe64, Crc32, Put, Region, PlainHeader, TableBytesOk, InField;
    hide CopyDone, CopyStopped, Ordered, ScanFrom, SealedRegion, CopyScanned, Dirty, LunJob;
    CopyScans(mem, bak, count, lun, device, ut, l, backup);
    var s := ScanFrom(mem, count, 0, lun, device, ut, Scan(Region(l, backup), TableIn(l, backup), bak, true));
    if s.skip {
      SkippedCopy(mem, bak, count, lun, ut, l, backup, s);
    } else {
      ScanKeepsHeader(l, backup, s.buf);
      if TableBytesOk(Header(l, backup)) {
        WrittenCopy(mem, bak, count, lun, ut, l, backup, s);
      } else {
        StoppedCopy(mem, bak, count, lun, ut, l, backup, s);
      }
    }
  }

  lemma StoppedCopy(mem: seq<Entry>, bak: seq<Entry>, count: nat, lun: nat, ut: UpdateType, l: Lun, backup: bool, s: Scan)
    requires count <= |mem| == |bak| == MAX_NUM_PARTITIONS && l.Lun? && LunOk(l)
    requires CopyScanned(mem, bak, count, lun, ut, l, backup, s)
    ensures CopyStopped(mem, bak, count, lun, ut, l, backup, Flow(l, s.bak, true))
  {
    assert |s.bak| == MAX_NUM_PARTITIONS;
    hide ShadowDone, CopyScanned, LunJob;
    forall k | 0 <= k < MAX_NUM_PARTITIONS
      ensures ShadowDone(LunJob(mem, count, lun, ut, l, backup), bak, s.bak, k)
    {
      ScannedShadow(mem, bak, count, lun, ut, l, backup, s, k);
    }
  }

  lemma ScannedShadow(mem: seq<Entry>, bak: seq<Entry>, count: nat, lun: nat, ut: UpdateType, l: Lun, backup: bool, s: Scan, k: nat)
    requires count <= |mem| == |bak| == MAX_NUM_PARTITIONS && l.Lun? && LunOk(l) && k < MAX_NUM_PARTITIONS
    requires CopyScanned(mem, bak, count, lun, ut, l, backup, s)
    ensures |s.bak| == MAX_NUM_PARTITIONS && ShadowDone(LunJob(mem, count, lun, ut, l, backup), bak, s.bak, k)
  {
    hide GuidAt, AttributesAt, Differs, Selected, Shadowed, InField, Takes, SlotFor, Region, TableIn;
    if k < count {
      SameTaken(mem, count, lun, ut, l, backup, k);
    }
  }

  /** What the scan left in slot k, once the bytes of the LUN hold it. */
  lemma ScannedSlot(mem: seq<Entry>, bak: seq<Entry>, count: nat, lun: nat, ut: UpdateType, l: Lun, backup: bool, s: Scan, bytes: seq<Byte>, k: nat)
    requires count <= |mem| == |bak| == MAX_NUM_PARTITIONS && l.Lun? && LunOk(l) && k < MAX_NUM_PARTITIONS && |bytes| == |l.bytes|
    requires CopyScanned(mem, bak, count, lun, ut, l, backup, s)
    requires k < count ==>
      var at, in_ := SlotFor(LunJob(mem, count, lun, ut, l, backup), k), SlotFor(RegionJob(mem, count, lun, ut, l, backup), k);
      GuidAt(bytes, at) == GuidAt(s.buf, in_) && AttributesAt(bytes, at) == AttributesAt(s.buf, in_)
    ensures SlotDone(LunJob(mem, count, lun, ut, l, backup), bak, bytes, s.bak, k)
  {
    hide GuidAt, AttributesAt, Differs, Selected, Shadowed, InField, Takes, SlotFor, Region, TableIn;
    if k < count {
      SameTaken(mem, count, lun, ut, l, backup, k);
    }
  }

  lemma SkippedCopy(mem: seq<Entry>, bak: seq<Entry>, count: nat, lun: nat, ut: UpdateType, l: Lun, backup: bool, s: Scan)
    requires count <= |mem| == |bak| == MAX_NUM_PARTITIONS && l.Lun? && LunOk(l)
    requires CopyScanned(mem, bak, count, lun, ut, l, backup, s) && s.skip
    ensures CopyDone(mem, bak, count, lun, ut, l, backup, Flow(l, s.bak, false)) && s.bak == bak
  {
    var j, r := LunJob(mem, count, lun, ut, l, backup), RegionJob(mem, count, lun, ut, l, backup);
    ScannedRest(r, 0, Scan(Region(l, backup), TableIn(l, backup), bak, true), s);
    hide InField, InCrc, GuidAt, AttributesAt, Region, Takes, SlotFor, SlotDone, CopyScanned, TableIn;
    forall k | 0 <= k < MAX_NUM_PARTITIONS
      ensures SlotDone(j, bak, l.bytes, s.bak, k)
    {
      if k < count {
        SameTaken(mem, count, lun, ut, l, backup, k);
      }
      ScannedSlot(mem, bak, count, lun, ut, l, backup, s, l.bytes, k);
    }
    forall k | 0 <= k < MAX_NUM_PARTITIONS
      ensures s.bak[k] == bak[k]
    {
      SkippedShadow(mem, bak, count, lun, ut, l, backup, s, k);
    }
  }

  /** A scan that finds nothing to write leaves the shadows. */
  lemma SkippedShadow(mem: seq<Entry>, bak: seq<Entry>, count: nat, lun: nat, ut: UpdateType, l: Lun, backup: bool, s: Scan, k: nat)
    requires count <= |mem| == |bak| == MAX_NUM_PARTITIONS && l.Lun? && LunOk(l) && k < MAX_NUM_PARTITIONS
    requires CopyScanned(mem, bak, count, lun, ut, l, backup, s) && s.skip
    ensures |s.bak| == MAX_NUM_PARTITIONS && s.bak[k] == bak[k]
  {
    hide GuidAt, AttributesAt, InField, Takes, SlotFor, Region, TableIn;
  }

  lemma WrittenCopy(mem: seq<Entry>, bak: seq<Entry>, count: nat, lun: nat, ut: UpdateType, l: Lun, backup: bool, s: Scan)
    requires count <= |mem| == |bak| == MAX_NUM_PARTITIONS && l.Lun? && LunOk(l)
    requires CopyScanned(mem, bak, count, lun, ut, l, backup, s) && BufDeclares(l, backup, s.buf)
    requires forall x :: 0 <= x < |s.buf| && !InField(x - TableIn(l, backup)) ==> s.buf[x] == Region(l, backup)[x]
    ensures LunOk(Written(l, backup, s.buf))
    ensures CopyDone(mem, bak, count, lun, ut, l, backup, Flow(Written(l, backup, s.buf), s.bak, false))
  {
    ScanKeepsHeader(l, backup, s.buf);
    assert |s.buf| == l.blockSize + MAX_PARTITION_ENTRIES_SZ && |s.bak| == MAX_NUM_PARTITIONS;
    hide InField, InCrc, GuidAt, AttributesAt, Region, CopySound, CopyFrame, Takes, SlotFor, SlotDone, CopyScanned, BufDeclares, Written, RestKept;
    WrittenSound(l, backup, s.buf);
    WrittenFrame(l, backup, s.buf);
    forall k | 0 <= k < MAX_NUM_PARTITIONS
      ensures SlotDone(LunJob(mem, count, lun, ut, l, backup), bak, Written(l, backup, s.buf).bytes, s.bak, k)
    {
      WrittenSlotDone(mem, bak, count, lun, ut, l, backup, s, k);
    }
    WrittenBehind(mem, bak, count, lun, ut, l, backup, s);
  }

  lemma WrittenSlotDone(mem: seq<Entry>, bak: seq<Entry>, count: nat, lun: nat, ut: UpdateType, l: Lun, backup: bool, s: Scan, k: nat)
    requires count <= |mem| == |bak| == MAX_NUM_PARTITIONS && l.Lun? && LunOk(l) && k < MAX_NUM_PARTITIONS
    requires CopyScanned(mem, bak, count, lun, ut, l, backup, s) && BufDeclares(l, backup, s.buf)
    ensures SlotDone(LunJob(mem, count, lun, ut, l, backup), bak, Written(l, backup, s.buf).bytes, s.bak, k)
  {
    hide InField, GuidAt, AttributesAt, Region, Takes, SlotDone, Scanned, BufDeclares, Written, GetLe64;
    if k < count {
      SameTaken(mem, count, lun, ut, l, backup, k);
      WrittenSlot(l, backup, s.buf, SlotFor(RegionJob(mem, count, lun, ut, l, backup), k));
    }
    ScannedSlot(mem, bak, count, lun, ut, l, backup, s, Written(l, backup, s.buf).bytes, k);
  }

  /** A byte behind the last slot taken. */
  lemma BehindKept(mem: seq<Entry>, bak: seq<Entry>, count: nat, lun: nat, ut: UpdateType, l: Lun, backup: bool, s: Scan, x: nat)
    requires count <= |mem| == |bak| == MAX_NUM_PARTITIONS && l.Lun? && LunOk(l)
    requires CopyScanned(mem, bak, count, lun, ut, l, backup, s) && BufDeclares(l, backup, s.buf)
    requires SlotFor(LunJob(mem, count, lun, ut, l, backup), count) <= x < TableAt(l, backup) + MAX_PARTITION_ENTRIES_SZ
    ensures Written(l, backup, s.buf).bytes[x] == l.bytes[x]
  {
    assert |s.buf| == l.blockSize + MAX_PARTITION_ENTRIES_SZ;
    hide Region, CopyScanned, BufDeclares, Written, SlotFor, LunJob, RegionJob, TableAt;
    JobPlace(mem, count, lun, ut, l, backup);
    BehindByte(l, backup, s.buf, x);
    SameTaken(mem, count, lun, ut, l, backup, count);
    RegionRest(mem, bak, count, lun, ut, l, backup, s);
  }

  /** The slots behind the last one taken. */
  lemma WrittenBehind(mem: seq<Entry>, bak: seq<Entry>, count: nat, lun: nat, ut: UpdateType, l: Lun, backup: bool, s: Scan)
    requires count <= |mem| == |bak| == MAX_NUM_PARTITIONS && l.Lun? && LunOk(l)
    requires CopyScanned(mem, bak, count, lun, ut, l, backup, s) && BufDeclares(l, backup, s.buf)
    ensures RestKept(LunJob(mem, count, lun, ut, l, backup), Written(l, backup, s.buf).bytes)
  {
    var j := LunJob(mem, count, lun, ut, l, backup);
    hide Region, CopyScanned, BufDeclares, Written, SlotFor, LunJob, TableAt;
    JobPlace(mem, count, lun, ut, l, backup);
    forall x | SlotFor(j, count) <= x < TableAt(l, backup) + MAX_PARTITION_ENTRIES_SZ
      ensures Written(l, backup, s.buf).bytes[x] == l.bytes[x]
    {
      BehindKept(mem, bak, count, lun, ut, l, backup, s, x);
    }
  }

  lemma JobPlace(mem: seq<Entry>, count: nat, lun: nat, ut: UpdateType, l: Lun, backup: bool)
    requires count <= |mem| == MAX_NUM_PARTITIONS && l.Lun? && LunOk(l)
    ensures var j := LunJob(mem, count, lun, ut, l, backup);
      j.table == TableAt(l, backup) <= SlotFor(j, count) && j.buf == l.bytes
  {
  }

  lemma RegionRest(mem: seq<Entry>, bak: seq<Entry>, count: nat, lun: nat, ut: UpdateType, l: Lun, backup: bool, s: Scan)
    requires count <= |mem| == |bak| == MAX_NUM_PARTITIONS && l.Lun? && LunOk(l)
    requires CopyScanned(mem, bak, count, lun, ut, l, backup, s)
    ensures forall d :: SlotFor(RegionJob(mem, count, lun, ut, l, backup), count) <= d < |s.buf| ==> s.buf[d] == Region(l, backup)[d]
  {
    hide Region, SlotFor, Scanned, InField;
    ScannedRest(RegionJob(mem, count, lun, ut, l, backup), 0, Scan(Region(l, backup), TableIn(l, backup), bak, true), s);
  }

  /** A byte of the table afterwards. */
  lemma BehindByte(l: Lun, backup: bool, buf: seq<Byte>, x: nat)
    requires l.Lun? && LunOk(l) && |buf| == l.blockSize + MAX_PARTITION_ENTRIES_SZ && BufDeclares(l, backup, buf)
    requires TableAt(l, backup) <= x < TableAt(l, backup) + MAX_PARTITION_ENTRIES_SZ
    ensures var d := x - RegionAt(l, backup);
      && TableIn(l, backup) <= d < |buf| && x - TableAt(l, backup) == d - TableIn(l, backup)
      && Written(l, backup, buf).bytes[x] == buf[d] && Region(l, backup)[d] == l.bytes[x]
  {
    hide Written, BufDeclares, Region;
    WrittenByte(l, backup, buf, x);
    RegionByte(l, backup, x - RegionAt(l, backup));
  }
}
