/**
 * The slot engine as it runs: the tables are arrays updated in place, GPT copies go through
 * a buffer with a moving entry pointer (GPLDrivers/Library/BootSlotLib/PartitionTableUpdate.c).
 * Every routine is proved to compute its function in SlotSpec.
 */
module SlotEngine {
  import opened Crc32Spec
  import opened GptFormat
  import opened Bits64
  import opened Division
  import opened SlotTypes
  import opened SlotSpec

  // ---- bytes in place ----

  method CopyMem(buf: array<Byte>, at: nat, bytes: seq<Byte>)
    requires at + |bytes| <= buf.Length
    modifies buf
    ensures buf[..] == Put(old(buf[..]), at, bytes)
  {
    for k := 0 to |bytes|
      invariant forall x :: 0 <= x < buf.Length ==> buf[x] == if at <= x < at + k then bytes[x - at] else old(buf[x])
    {
      buf[at + k] := bytes[k];
    }
  }

  /** PUT_LONG. */
  method PutLong(buf: array<Byte>, at: nat, y: bv32)
    requires at + 4 <= buf.Length
    modifies buf
    ensures buf[..] == Put(old(buf[..]), at, Le32(y))
  {
    CopyMem(buf, at, Le32(y));
  }

  /** PUT_LONG_LONG. */
  method PutLongLong(buf: array<Byte>, at: nat, y: bv64)
    requires at + 8 <= buf.Length
    modifies buf
    ensures buf[..] == Put(old(buf[..]), at, Le64(y))
  {
    CopyMem(buf, at, Le64(y));
  }

  /** Writing into a header inside a buffer. */
  lemma PutNested(s: seq<Byte>, h: nat, n: nat, off: nat, b: seq<Byte>)
    requires h + n <= |s| && off + |b| <= n
    ensures Put(s, h + off, b) == Put(s, h, Put(s[h..h + n], off, b))
    ensures Put(s, h + off, b)[h..h + n] == Put(s[h..h + n], off, b)
  {
  }

  lemma FieldInside(s: seq<Byte>, h: nat, n: nat, off: nat)
    requires h + n <= |s| && off + 4 <= n
    ensures GetLe32(s, h + off) == GetLe32(s[h..h + n], off)
  {
  }

  /** A store into the header of a buffer whose header has become h. */
  lemma StoreStep(was: seq<Byte>, hdr: nat, h: seq<Byte>, off: nat, b: seq<Byte>)
    requires hdr + |h| <= |was| && off + |b| <= |h|
    ensures Put(Put(was, hdr, h), hdr + off, b) == Put(was, hdr, Put(h, off, b))
  {
  }

  lemma HeaderOfPut(was: seq<Byte>, hdr: nat, h: seq<Byte>, size: nat)
    requires hdr + |h| <= |was| && size <= |h|
    ensures Put(was, hdr, h)[hdr..hdr + size] == h[..size]
  {
  }

  lemma PrefixOfSlice(s: seq<Byte>, from: nat, n: nat, size: nat)
    requires from + n <= |s| && size <= n
    ensures s[from..from + size] == s[from..from + n][..size]
  {
  }

  /** The three stores together seal the header. */
  lemma SealedBuffer(was: seq<Byte>, hdr: nat, table: nat, n: nat, size: nat)
    requires HEADER_SIZE <= n && hdr + n <= |was| && table + MAX_PARTITION_ENTRIES_SZ <= |was|
    requires size == TableBytes(was[hdr..hdr + n]) <= MAX_PARTITION_ENTRIES_SZ
    ensures var b1 := Put(was, hdr + ENTRIES_CRC_OFFSET, Le32(Crc32(was[table..table + size])));
      var b2 := Put(b1, hdr + HEADER_CRC_OFFSET, Le32(0));
      Put(b2, hdr + HEADER_CRC_OFFSET, Le32(Crc32(b2[hdr..hdr + HEADER_SIZE])))
      == Put(was, hdr, Sealed(was[hdr..hdr + n], was[table..table + MAX_PARTITION_ENTRIES_SZ]))
  {
    hide GetLe32, Le32, Crc32, Put, TableBytes;
    var h := was[hdr..hdr + n];
    PrefixOfSlice(was, table, MAX_PARTITION_ENTRIES_SZ, size);
    var h1 := Put(h, ENTRIES_CRC_OFFSET, Le32(Crc32(was[table..table + size])));
    PutNested(was, hdr, n, ENTRIES_CRC_OFFSET, Le32(Crc32(was[table..table + size])));
    StoreStep(was, hdr, h1, HEADER_CRC_OFFSET, Le32(0));
    var h2 := Put(h1, HEADER_CRC_OFFSET, Le32(0));
    HeaderOfPut(was, hdr, h2, HEADER_SIZE);
    StoreStep(was, hdr, h2, HEADER_CRC_OFFSET, Le32(Crc32(h2[..HEADER_SIZE])));
  }

  /**
   * The checksum part of UpdatePartitionAttributes on the buffer that holds the header at
   * hdr and the entry array at table; false stands for the jump to Exit.
   */
  method SealHeader(buf: array<Byte>, hdr: nat, table: nat, blockSize: nat) returns (ok: bool)
    requires HEADER_SIZE <= blockSize && hdr + blockSize <= buf.Length && table + MAX_PARTITION_ENTRIES_SZ <= buf.Length
    requires table + MAX_PARTITION_ENTRIES_SZ <= hdr || hdr + blockSize <= table
    modifies buf
    ensures ok == TableBytesOk(old(buf[hdr..hdr + blockSize]))
    ensures !ok ==> buf[..] == old(buf[..])
    ensures ok ==> buf[..] == Put(old(buf[..]), hdr,
      Sealed(old(buf[hdr..hdr + blockSize]), old(buf[table..table + MAX_PARTITION_ENTRIES_SZ])))
  {
    hide GetLe32, Le32, Crc32, Put, Sealed;
    ghost var was := buf[..];
    assert buf[hdr..hdr + blockSize] == was[hdr..hdr + blockSize];
    assert buf[table..table + MAX_PARTITION_ENTRIES_SZ] == was[table..table + MAX_PARTITION_ENTRIES_SZ];
    var maxPtnCount := WordAt(buf[..], hdr + ENTRY_COUNT_OFFSET);
    var ptnEntrySz := WordAt(buf[..], hdr + ENTRY_SIZE_OFFSET);
    FieldInside(was, hdr, blockSize, ENTRY_COUNT_OFFSET);
    FieldInside(was, hdr, blockSize, ENTRY_SIZE_OFFSET);
    var size := Times(maxPtnCount, ptnEntrySz);
    assert size == TableBytes(was[hdr..hdr + blockSize]);
    hide Times, WordAt, TableBytes;
    if size > MAX_PARTITION_ENTRIES_SZ {
      return false;
    }
    if size == 0 {
      return false;
    }
    SealedBuffer(was, hdr, table, blockSize, size);
    var crcVal := Crc32(buf[table..table + size]);
    assert buf[table..table + size] == was[table..table + size];
    PutLong(buf, hdr + ENTRIES_CRC_OFFSET, crcVal);
    PutLong(buf, hdr + HEADER_CRC_OFFSET, 0);
    crcVal := Crc32(buf[hdr..hdr + HEADER_SIZE]);
    assert buf[hdr..hdr + HEADER_SIZE] == buf[..][hdr..hdr + HEADER_SIZE];
    PutLong(buf, hdr + HEADER_CRC_OFFSET, crcVal);
    return true;
  }

  /** The attribute word is read before the GUID is stored; the store does not reach it. */
  lemma AttributesBehindGuid(e: Entry, i: nat, s: Scan)
    requires Room(s, 1) && i < MAX_NUM_PARTITIONS
    ensures AttributesAt(ScanGuid(e, i, s).buf, s.ptr) == AttributesAt(s.buf, s.ptr)
  {
  }

  // ---- block addresses ----

  lemma BlockSums(q: nat, n: nat, bs: nat, entries: nat, len: nat)
    requires 0 < bs && q * bs == entries && n * bs == len && bs + entries <= len
    ensures (1 + q) * bs == bs + entries && (1 + q) * bs / bs == 1 + q
    ensures 1 + q <= n && (n - (1 + q)) * bs == len - bs - entries
  {
    assert (1 + q) * bs == bs + q * bs;
    QuotientUnique((1 + q) * bs, bs, 1 + q, 0);
    QuotientUnique(len, bs, n, 0);
    QuotientAtLeast(len, bs, 1 + q);
    TimesDiff(n, 1 + q, bs);
  }

  /** The block numbers the routine computes lead to the two regions. */
  lemma BlockAddresses(l: Lun)
    requires l.Lun? && LunOk(l) && BlocksOk(l)
    ensures var bs := l.blockSize;
      var size := (1 + MAX_PARTITION_ENTRIES_SZ / bs) * bs;
      && size == bs + MAX_PARTITION_ENTRIES_SZ && 1 * bs == RegionAt(l, false)
      && size / bs <= |l.bytes| / bs && (|l.bytes| / bs - size / bs) * bs == RegionAt(l, true)
      && MAX_PARTITION_ENTRIES_SZ / bs * bs == HeaderIn(l, true)
  {
    var bs := l.blockSize;
    Divides(MAX_PARTITION_ENTRIES_SZ, bs);
    Divides(|l.bytes|, bs);
    BlockSums(MAX_PARTITION_ENTRIES_SZ / bs, |l.bytes| / bs, bs, MAX_PARTITION_ENTRIES_SZ, |l.bytes|);
  }

  /** A pass keeps the shape of the LUN. */
  lemma PassKeepsShape(mem: seq<Entry>, bak: seq<Entry>, count: nat, lun: nat, device: Device, ut: UpdateType, l: Lun, backup: bool)
    requires |mem| == MAX_NUM_PARTITIONS && |bak| == MAX_NUM_PARTITIONS && count <= MAX_NUM_PARTITIONS
    requires l.Lun? && LunOk(l) && BlocksOk(l)
    ensures var f := UpdateCopy(mem, bak, count, lun, device, ut, l, backup); LunOk(f.lun) && BlocksOk(f.lun)
  {
    hide UpdateCopy;
  }

  // ---- names ----

  lemma {:induction false} MoreSlots(mem: seq<Entry>, i: nat, count: nat, name: Str16)
    requires i <= count <= |mem|
    ensures SlotCount(mem, i, name) <= SlotCount(mem, count, name)
    decreases count
  {
    if i < count {
      MoreSlots(mem, i, count - 1, name);
    }
  }

  lemma NotSlotted()
    ensures !Slotted([])
  {
  }

  lemma SlottedHasSuffix(n: Str16)
    requires Slotted(n)
    ensures |n| >= 2
  {
  }

  // ---- handles in order ----

  lemma PlacesUpTo(handles: seq<seq<Handle>>, i: nat)
    requires i < |handles|
    ensures AllPlaces(handles[..i + 1]) == AllPlaces(handles[..i]) + PlacesOf(i, handles[i])
  {
    assert handles[..i + 1][..i] == handles[..i];
  }

  lemma {:induction false} PlacesPrefix(handles: seq<seq<Handle>>, i: nat)
    requires i <= |handles|
    ensures AllPlaces(handles[..i]) <= AllPlaces(handles)
    decreases |handles| - i
  {
    if i == |handles| {
      assert handles[..i] == handles;
    } else {
      PlacesUpTo(handles, i);
      PlacesPrefix(handles, i + 1);
    }
  }

  /** The place of handle j of LUN i. */
  lemma PlaceIs(handles: seq<seq<Handle>>, i: nat, j: nat)
    requires i < |handles| && j < |handles[i]|
    ensures var k := |AllPlaces(handles[..i])| + j;
      k < |AllPlaces(handles)| && AllPlaces(handles)[k] == Place(i, handles[i][j])
  {
    PlacesUpTo(handles, i);
    PlacesPrefix(handles, i + 1);
    var k := |AllPlaces(handles[..i])| + j;
    assert AllPlaces(handles[..i + 1])[k] == PlacesOf(i, handles[i])[j];
  }

  lemma NoPlaces(handles: seq<seq<Handle>>)
    ensures AllPlaces(handles[..0]) == []
  {
  }

  lemma LoadedRest(p: seq<Place>, luns: seq<Lun>, n: nat)
    requires PlacesOk(p, luns) && n == Min(|p|, MAX_NUM_PARTITIONS)
    ensures forall k :: n <= k < MAX_NUM_PARTITIONS ==> Loaded(p, luns)[k] == Blank(0)
  {
    hide Loaded;
    forall k | n <= k < MAX_NUM_PARTITIONS
      ensures Loaded(p, luns)[k] == Blank(0)
    {
      LoadedAt(p, luns, k);
    }
  }

  /** The table as far as it has been loaded. */
  ghost predicate LoadedUpTo(t: seq<Entry>, index: nat, loaded: seq<Entry>) {
    && |t| == |loaded| == MAX_NUM_PARTITIONS
    && forall k :: 0 <= k < MAX_NUM_PARTITIONS ==> t[k] == if k < index then loaded[k] else Blank(0)
  }

  class Engine {
    const ptnEntries: array<Entry>
    const ptnEntriesBak: array<Entry>
    const device: Device
    var partitionCount: nat
    var headNode: seq<Str16>
    var bootLun: nat
    var luns: seq<Lun>

    /** The state as SlotSpec sees it. */
    ghost function State(): State
      reads this, ptnEntries, ptnEntriesBak
    {
      SlotSpec.State(ptnEntries[..], ptnEntriesBak[..], partitionCount, headNode, device, bootLun, luns)
    }

    ghost predicate Valid()
      reads this, ptnEntries, ptnEntriesBak
    {
      && ptnEntries != ptnEntriesBak
      && ptnEntries.Length == ptnEntriesBak.Length == MAX_NUM_PARTITIONS
      && partitionCount <= MAX_NUM_PARTITIONS && StateOk(State())
      && forall l :: 0 <= l < |luns| ==> BlocksOk(luns[l])
    }

    /** A program just started: all statics zero. */
    constructor (device: Device, bootLun: nat, luns: seq<Lun>)
      requires forall l :: 0 <= l < |luns| ==> LunOk(luns[l]) && BlocksOk(luns[l])
      requires device.Emmc? ==> |luns| <= 1
      ensures Valid() && fresh(ptnEntries) && fresh(ptnEntriesBak)
      ensures State() == Fresh(device, bootLun, luns)
    {
      this.device, this.bootLun, this.luns := device, bootLun, luns;
      partitionCount, headNode := 0, [];
      ptnEntries := new Entry[MAX_NUM_PARTITIONS](i => Blank(0));
      ptnEntriesBak := new Entry[MAX_NUM_PARTITIONS](i => Blank(0));
      new;
      assert ptnEntries[..] == BlankTable() == ptnEntriesBak[..];
    }

    // ---- writing the table back ----

    ghost predicate Apart(buf: array<Byte>) {
      var o: object := buf;
      o != ptnEntries && o != ptnEntriesBak
    }

    /** Stores the entry's type GUID if another one is there. */
    method UpdateGuid(buf: array<Byte>, ptr: nat, i: nat, skip: bool) returns (skip': bool)
      requires Valid() && Apart(buf) && i < MAX_NUM_PARTITIONS && ptr + PARTITION_ENTRY_SIZE <= buf.Length
      modifies buf, ptnEntriesBak
      ensures Scan(buf[..], ptr, ptnEntriesBak[..], skip')
        == ScanGuid(ptnEntries[i], i, Scan(old(buf[..]), ptr, old(ptnEntriesBak[..]), skip))
    {
      hide Put;
      skip' := skip;
      var e := ptnEntries[i];
      if buf[..][ptr..ptr + 16] != e.typeGuid {
        CopyMem(buf, ptr, e.typeGuid);
        ghost var bak := ptnEntriesBak[..];
        assert bak == old(ptnEntriesBak[..]);
        ptnEntriesBak[i] := ptnEntriesBak[i].(typeGuid := e.typeGuid);
        assert ptnEntriesBak[..] == SetGuid(bak, i, e.typeGuid);
        skip' := false;
      }
    }

    /** Stores the entry's attribute word if attr, the word stored, is another one. */
    method UpdateAttributes(buf: array<Byte>, ptr: nat, i: nat, attr: bv64, skip: bool) returns (skip': bool)
      requires Valid() && Apart(buf) && i < MAX_NUM_PARTITIONS && ptr + PARTITION_ENTRY_SIZE <= buf.Length
      requires attr == AttributesAt(buf[..], ptr)
      modifies buf, ptnEntriesBak
      ensures Scan(buf[..], ptr, ptnEntriesBak[..], skip')
        == ScanAttributes(ptnEntries[i], i, Scan(old(buf[..]), ptr, old(ptnEntriesBak[..]), skip))
    {
      hide Put, GetLe64, Le64;
      skip' := skip;
      var e := ptnEntries[i];
      if attr != e.attributes {
        PutLongLong(buf, ptr + ATTRIBUTE_FLAG_OFFSET, e.attributes);
        ghost var bak := ptnEntriesBak[..];
        assert bak == old(ptnEntriesBak[..]);
        ptnEntriesBak[i] := ptnEntriesBak[i].(attributes := e.attributes);
        assert ptnEntriesBak[..] == SetAttributes(bak, i, e.attributes);
        skip' := false;
      }
    }

    /** The body of the entry loop, for an entry of this LUN. */
    method ScanOne(buf: array<Byte>, ptr: nat, i: nat, ut: UpdateType, skip: bool) returns (ptr': nat, skip': bool)
      requires Valid() && Apart(buf) && i < MAX_NUM_PARTITIONS && ptr + PARTITION_ENTRY_SIZE <= buf.Length
      modifies buf, ptnEntriesBak
      ensures Scan(buf[..], ptr', ptnEntriesBak[..], skip')
        == ScanEntry(ptnEntries[i], i, ut, Scan(old(buf[..]), ptr, old(ptnEntriesBak[..]), skip))
    {
      hide GetLe64, Le64, Data1Zero, Put, ScanGuid, ScanAttributes;
      skip' := skip;
      var attr := GetLe64(buf[..], ptr + ATTRIBUTE_FLAG_OFFSET);
      AttributesBehindGuid(ptnEntries[i], i, Scan(buf[..], ptr, ptnEntriesBak[..], skip));
      if ut.guid {
        skip' := UpdateGuid(buf, ptr, i, skip');
      }
      if ut.attributes {
        var guid := GuidAt(buf[..], ptr);
        if Data1Zero(guid) || guid == ptnEntries[i].typeGuid {
          skip' := UpdateAttributes(buf, ptr, i, attr, skip');
        } else {
          return ptr, skip';
        }
      }
      ptr' := ptr + PARTITION_ENTRY_SIZE;
    }

    /** The loop over the table on one GPT copy whose entry array starts at start. */
    method ScanEntries(buf: array<Byte>, start: nat, lun: nat, ut: UpdateType) returns (skip: bool)
      requires Valid() && Apart(buf) && start + MAX_PARTITION_ENTRIES_SZ <= buf.Length
      modifies buf, ptnEntriesBak
      ensures var r := ScanFrom(ptnEntries[..], partitionCount, 0, lun, device, ut,
                                Scan(old(buf[..]), start, old(ptnEntriesBak[..]), true));
        buf[..] == r.buf && ptnEntriesBak[..] == r.bak && skip == r.skip
      ensures Valid()
    {
      hide ScanEntry, Data1Zero;
      ghost var mem, count := ptnEntries[..], partitionCount;
      ghost var r := ScanFrom(mem, count, 0, lun, device, ut, Scan(buf[..], start, ptnEntriesBak[..], true));
      var ptr: nat := start;
      skip := true;
      for i := 0 to partitionCount
        invariant ptr <= start + PARTITION_ENTRY_SIZE * i && Valid()
        invariant ScanFrom(mem, count, i, lun, device, ut, Scan(buf[..], ptr, ptnEntriesBak[..], skip)) == r
      {
        var e := ptnEntries[i];
        if Data1Zero(e.typeGuid) {
          continue;
        }
        if device.Ufs? {
          if e.lun > lun {
            break;
          }
          if e.lun != lun {
            continue;
          }
        }
        ptr, skip := ScanOne(buf, ptr, i, ut, skip);
      }
    }

    method ReadBlocks(lun: nat, offset: nat, buf: array<Byte>)
      requires lun < |luns| && luns[lun].Lun? && offset * luns[lun].blockSize + buf.Length <= |luns[lun].bytes|
      modifies buf
      ensures buf[..] == luns[lun].bytes[offset * luns[lun].blockSize..offset * luns[lun].blockSize + buf.Length]
    {
      var at := offset * luns[lun].blockSize;
      for k := 0 to buf.Length
        invariant forall x :: 0 <= x < k ==> buf[x] == luns[lun].bytes[at + x]
      {
        buf[k] := luns[lun].bytes[at + k];
      }
    }

    method WriteBlocks(lun: nat, offset: nat, buf: array<Byte>)
      requires lun < |luns| && luns[lun].Lun? && offset * luns[lun].blockSize + buf.Length <= |luns[lun].bytes|
      modifies this`luns
      ensures luns == old(luns)[lun := old(luns[lun]).(bytes := Put(old(luns[lun].bytes), offset * old(luns[lun].blockSize), buf[..]))]
    {
      var l := luns[lun];
      luns := luns[lun := l.(bytes := Put(l.bytes, offset * l.blockSize, buf[..]))];
    }

    /** A LUN that may be updated. */
    ghost predicate Configured(lun: nat)
      reads this
    {
      lun < |luns| && luns[lun].Lun? && LunOk(luns[lun]) && BlocksOk(luns[lun])
    }

    /** The buffer has the size of a GPT copy. */
    ghost predicate BufferOf(buf: array<Byte>, lun: nat)
      reads this
    {
      Configured(lun) && buf.Length == luns[lun].blockSize + MAX_PARTITION_ENTRIES_SZ
    }

    /** One turn of the loop over primary (iter 0) and backup (iter 1); true stands for the jump to Exit. */
    method UpdatePass(gptHdr: array<Byte>, lun: nat, iter: nat, offset: nat, ut: UpdateType) returns (exit: bool)
      requires Valid() && Apart(gptHdr) && BufferOf(gptHdr, lun) && iter < 2
      requires offset * luns[lun].blockSize == RegionAt(luns[lun], iter == 1)
      modifies gptHdr, ptnEntriesBak, this`luns
      ensures var f := UpdateCopy(ptnEntries[..], old(ptnEntriesBak[..]), partitionCount, lun, device, ut, old(luns[lun]), iter == 1);
        && luns == old(luns)[lun := f.lun] && ptnEntriesBak[..] == f.bak && exit == f.exit
        && LunOk(f.lun) && BlocksOk(f.lun)
      ensures Valid() && BufferOf(gptHdr, lun)
    {
      hide ScanFrom, Sealed, TableBytesOk, Put;
      var l := luns[lun];
      var blkSz := l.blockSize;
      BlockAddresses(l);
      PassKeepsShape(ptnEntries[..], ptnEntriesBak[..], partitionCount, lun, device, ut, l, iter == 1);
      hide BlocksOk, LunOk;
      ReadBlocks(lun, offset, gptHdr);
      assert gptHdr[..] == Region(l, iter == 1);
      var hdr, entries := 0, blkSz;
      if iter == 1 {
        hdr, entries := MAX_PARTITION_ENTRIES_SZ / blkSz * blkSz, 0;
      }
      assert hdr == HeaderIn(l, iter == 1) && entries == TableIn(l, iter == 1);
      var skip := ScanEntries(gptHdr, entries, lun, ut);
      if skip {
        assert luns[lun := l] == luns;
        return false;
      }
      ghost var scanned := gptHdr[..];
      assert gptHdr[hdr..hdr + blkSz] == scanned[hdr..hdr + blkSz];
      assert gptHdr[entries..entries + MAX_PARTITION_ENTRIES_SZ] == scanned[entries..entries + MAX_PARTITION_ENTRIES_SZ];
      var ok := SealHeader(gptHdr, hdr, entries, blkSz);
      if !ok {
        assert luns[lun := l] == luns;
        return true;
      }
      WriteBlocks(lun, offset, gptHdr);
      return false;
    }

    /** The body of the loop over the LUNs, for a configured LUN. */
    method UpdateBothCopies(lun: nat, ut: UpdateType) returns (exit: bool)
      requires Valid() && Configured(lun)
      modifies ptnEntriesBak, this`luns
      ensures var f := UpdateLun(ptnEntries[..], old(ptnEntriesBak[..]), partitionCount, lun, device, ut, old(luns[lun]));
        luns == old(luns)[lun := f.lun] && ptnEntriesBak[..] == f.bak && exit == f.exit
      ensures Valid()
    {
      hide UpdateCopy, RegionAt;
      var l := luns[lun];
      var blkSz := l.blockSize;
      var partEntriesBlocks := MAX_PARTITION_ENTRIES_SZ / blkSz;
      var size := (1 + partEntriesBlocks) * blkSz;
      var cardSizeSec := |l.bytes| / blkSz;
      BlockAddresses(l);
      var offset: nat := 1;
      var gptHdr := new Byte[size](i => 0);
      ghost var mem, bak, count := ptnEntries[..], ptnEntriesBak[..], partitionCount;
      ghost var f := UpdateCopy(mem, bak, count, lun, device, ut, l, false);
      exit := false;
      for iter := 0 to 2
        invariant Valid() && BufferOf(gptHdr, lun) && !exit
        invariant luns[lun].blockSize == blkSz && |luns[lun].bytes| == |l.bytes|
        invariant iter < 2 ==> offset * blkSz == RegionAt(luns[lun], iter == 1)
        invariant iter == 0 ==> luns == old(luns) && ptnEntriesBak[..] == bak
        invariant iter == 1 ==> luns == old(luns)[lun := f.lun] && ptnEntriesBak[..] == f.bak && !f.exit
        invariant iter == 2 ==>
          var g := UpdateLun(mem, bak, count, lun, device, ut, l);
          luns == old(luns)[lun := g.lun] && ptnEntriesBak[..] == g.bak && !g.exit
      {
        exit := UpdatePass(gptHdr, lun, iter, offset, ut);
        if exit {
          return;
        }
        offset := cardSizeSec - size / blkSz;
        BlockAddresses(luns[lun]);
      }
    }

    method UpdatePartitionAttributes(ut: UpdateType)
      requires Valid()
      modifies ptnEntriesBak, this`luns
      ensures Valid() && State() == SlotSpec.UpdatePartitionAttributes(old(State()), ut)
    {
      hide UpdateLun;
      if ptnEntries[..] == ptnEntriesBak[..] {
        return;
      }
      if device.UnknownDevice? {
        return;
      }
      ghost var r := UpdateLuns(State(), ut, 0);
      for lun := 0 to |luns|
        invariant Valid() && |luns| == |old(luns)|
        invariant UpdateLuns(State(), ut, lun) == r
      {
        if luns[lun].Unconfigured? {
          continue;
        }
        var exit := UpdateBothCopies(lun, ut);
        if exit {
          return;
        }
      }
    }

    // ---- loading the table ----

    /** SetMem on the table. */
    method ClearEntries()
      requires ptnEntries.Length == MAX_NUM_PARTITIONS
      modifies ptnEntries
      ensures forall k :: 0 <= k < MAX_NUM_PARTITIONS ==> ptnEntries[k] == Blank(0)
    {
      for i := 0 to MAX_NUM_PARTITIONS
        invariant forall k :: 0 <= k < i ==> ptnEntries[k] == Blank(0)
      {
        ptnEntries[i] := Blank(0);
      }
    }

    /** CopyMem from the table to its shadow. */
    method BackUpEntries()
      requires ptnEntries != ptnEntriesBak && ptnEntries.Length == ptnEntriesBak.Length == MAX_NUM_PARTITIONS
      modifies ptnEntriesBak
      ensures ptnEntriesBak[..] == ptnEntries[..]
    {
      for i := 0 to MAX_NUM_PARTITIONS
        invariant forall k :: 0 <= k < i ==> ptnEntriesBak[k] == ptnEntries[k]
      {
        ptnEntriesBak[i] := ptnEntries[i];
      }
    }

    /** The loop over the handles of LUN i. */
    method LoadLun(handles: seq<seq<Handle>>, i: nat, start: nat) returns (index: nat)
      requires ptnEntries.Length == MAX_NUM_PARTITIONS && i < |handles| && PlacesOk(AllPlaces(handles), luns)
      requires start == partitionCount == Min(|AllPlaces(handles[..i])|, MAX_NUM_PARTITIONS)
      requires LoadedUpTo(ptnEntries[..], start, Loaded(AllPlaces(handles), luns))
      modifies this`partitionCount, ptnEntries
      ensures index == partitionCount == Min(|AllPlaces(handles[..i + 1])|, MAX_NUM_PARTITIONS)
      ensures LoadedUpTo(ptnEntries[..], index, Loaded(AllPlaces(handles), luns))
    {
      hide Decode, LunOk, Loaded, AllPlaces;
      ghost var all := AllPlaces(handles);
      ghost var before := |AllPlaces(handles[..i])|;
      ghost var loaded := Loaded(all, luns);
      PlacesUpTo(handles, i);
      index := start;
      var j := 0;
      while j < |handles[i]| && index < MAX_NUM_PARTITIONS
        invariant j <= |handles[i]| && index == partitionCount <= MAX_NUM_PARTITIONS
        invariant if index < MAX_NUM_PARTITIONS then index == before + j else before + |handles[i]| >= MAX_NUM_PARTITIONS
        invariant LoadedUpTo(ptnEntries[..], index, loaded)
        decreases |handles[i]| - j
      {
        PlaceIs(handles, i, j);
        LoadedAt(all, luns, index);
        partitionCount := partitionCount + 1;
        var e := Blank(i);
        if handles[i][j].Record? {
          e := Decode(luns[i].bytes, SlotAt(luns[i], false, handles[i][j].slot), i);
        }
        ptnEntries[index] := e;
        j, index := j + 1, index + 1;
      }
    }

    /** Handles behind the table's end are not counted. */
    method UpdatePartitionEntries(handles: seq<seq<Handle>>)
      requires Valid() && PlacesOk(AllPlaces(handles), luns)
      modifies this`partitionCount, ptnEntries, ptnEntriesBak
      ensures Valid() && State() == SlotSpec.UpdatePartitionEntries(old(State()), handles)
    {
      hide Decode, LunOk, BlocksOk, Loaded, AllPlaces;
      ghost var all := AllPlaces(handles);
      ghost var loaded := Loaded(all, luns);
      partitionCount := 0;
      ClearEntries();
      var index: nat := 0;
      NoPlaces(handles);
      for i := 0 to |handles|
        invariant index == partitionCount == Min(|AllPlaces(handles[..i])|, MAX_NUM_PARTITIONS)
        invariant LoadedUpTo(ptnEntries[..], index, loaded)
      {
        index := LoadLun(handles, i, index);
      }
      assert handles[..|handles|] == handles;
      LoadedRest(all, luns, index);
      assert ptnEntries[..] == loaded;
      BackUpEntries();
    }

    // ---- names ----

    /** The index of the entry of that name, or partitionCount. */
    method GetPartitionIndex(name: Str16) returns (k: nat)
      requires Valid()
      ensures k == IndexFrom(ptnEntries[..], partitionCount, 0, name)
    {
      for i := 0 to partitionCount
        invariant IndexFrom(ptnEntries[..], partitionCount, i, name) == IndexFrom(ptnEntries[..], partitionCount, 0, name)
      {
        if ptnEntries[i].name == name {
          return i;
        }
      }
      return partitionCount;
    }

    method GetBootPartitionEntry(suffix: Str16) returns (k: nat)
      requires Valid()
      ensures k == BootIndex(ptnEntries[..], partitionCount, suffix)
    {
      if HasPrefix(SUFFIX_A, suffix) {
        k := GetPartitionIndex(BOOT_A);
      } else if HasPrefix(SUFFIX_B, suffix) {
        k := GetPartitionIndex(BOOT_B);
      } else {
        k := partitionCount;
      }
    }

    method PartitionHasMultiSlot(name: Str16) returns (found: bool)
      requires Valid()
      ensures found == SlotSpec.PartitionHasMultiSlot(State(), name)
    {
      hide SlotOf;
      var slotCount := 0;
      for i := 0 to partitionCount
        invariant slotCount == SlotCount(ptnEntries[..], i, name) <= 1
      {
        if SlotOf(ptnEntries[i], name) {
          slotCount := slotCount + 1;
          if slotCount > 1 {
            MoreSlots(ptnEntries[..], i + 1, partitionCount, name);
            return true;
          }
        }
      }
      return false;
    }

    method IsSlotBootable(suffix: Str16) returns (bootable: bool)
      requires Valid()
      ensures bootable == SlotSpec.IsSlotBootable(State(), suffix)
    {
      var k := GetBootPartitionEntry(suffix);
      if k == partitionCount {
        return false;
      }
      return !Unbootable(ptnEntries[k].attributes) && Successful(ptnEntries[k].attributes);
    }

    // ---- attributes ----

    /** A store to an entry's attribute word. */
    method StoreAttributes(k: nat, a: bv64)
      requires Valid() && k < MAX_NUM_PARTITIONS
      modifies ptnEntries
      ensures Valid() && ptnEntries[..] == SetAttributes(old(ptnEntries[..]), k, a)
      ensures State() == old(State()).(mem := SetAttributes(old(ptnEntries[..]), k, a))
    {
      ptnEntries[k] := ptnEntries[k].(attributes := a);
      assert ptnEntries[..] == SetAttributes(old(ptnEntries[..]), k, a);
    }

    method ClearUnbootable(suffix: Str16) returns (status: Status)
      requires Valid()
      modifies this`luns, ptnEntries, ptnEntriesBak
      ensures Valid() && (status, State()) == SlotSpec.ClearUnbootable(old(State()), suffix)
    {
      hide With, Without, IndexFrom, StateOk;
      var k := GetBootPartitionEntry(suffix);
      if k == partitionCount {
        return NotFound;
      }
      var a := ptnEntries[k].attributes;
      a := Without(a, UNBOOTABLE_VAL);
      a := With(a, MAX_RETRY_COUNT_VAL);
      StoreAttributes(k, a);
      UpdatePartitionAttributes(PARTITION_ATTRIBUTES);
      return Success;
    }

    /** The first-boot branch of GetActiveSlot, on the entry of slot _a. */
    method SetDefaultSlot(k: nat) returns (first: bool)
      requires Valid() && k < MAX_NUM_PARTITIONS
      modifies this`luns, ptnEntries, ptnEntriesBak
      ensures Valid() && first == NeverBooted(old(ptnEntries[k].attributes))
      ensures State() ==
        if first then SlotSpec.UpdatePartitionAttributes(
          old(State()).(mem := SetAttributes(old(ptnEntries[..]), k, FirstBoot(old(ptnEntries[k].attributes)))), PARTITION_ATTRIBUTES)
        else old(State())
    {
      hide With, Without, LunOk, BlocksOk, Active, Priority, Successful, Unbootable;
      var a := ptnEntries[k].attributes;
      var bootPriority := Priority(a);
      first := !Active(a) && !Successful(a) && !Unbootable(a) && bootPriority == 0;
      if first {
        a := Without(a, SUCCESSFUL_VAL | UNBOOTABLE_VAL);
        a := With(a, PRIORITY_VAL | ACTIVE_VAL | MAX_RETRY_COUNT_VAL);
        StoreAttributes(k, a);
        UpdatePartitionAttributes(PARTITION_ATTRIBUTES);
      }
    }

    /** GetActiveSlot, called with an empty suffix. */
    method GetActiveSlot() returns (status: Status, suffix: Str16)
      requires Valid()
      modifies this`luns, ptnEntries, ptnEntriesBak
      ensures Valid() && Found(status, suffix, State()) == SlotSpec.GetActiveSlot(old(State()))
    {
      hide BootIndex, LunOk, BlocksOk, Priority, Active, Above, NeverBooted, FirstBoot;
      suffix := [];
      var priority: bv64 := 0;
      var ka := GetBootPartitionEntry(SUFFIX_A);
      if ka == partitionCount {
        return NotFound, suffix;
      }
      var bootPriority := Priority(ptnEntries[ka].attributes);
      if Active(ptnEntries[ka].attributes) && Above(bootPriority, priority) {
        suffix, priority := SUFFIX_A, bootPriority;
      }
      var kb := GetBootPartitionEntry(SUFFIX_B);
      if kb == partitionCount {
        return NotFound, suffix;
      }
      bootPriority := Priority(ptnEntries[kb].attributes);
      if Active(ptnEntries[kb].attributes) && Above(bootPriority, priority) {
        suffix, priority := SUFFIX_B, bootPriority;
      }
      if suffix == [] {
        var first := SetDefaultSlot(ka);
        return if first then Success else NotFound, if first then SUFFIX_A else [];
      }
      return Success, suffix;
    }

    method MarkPtnActive(activeSlot: Str16)
      requires Valid()
      modifies this`luns, ptnEntries, ptnEntriesBak
      ensures Valid() && State() == SlotSpec.MarkPtnActive(old(State()), activeSlot)
    {
      hide With, Without, Contains, StateOk;
      ghost var was := ptnEntries[..];
      for i := 0 to partitionCount
        invariant ptnEntries[..] == MarkedTable(was, i, activeSlot)
        invariant Valid() && State() == old(State()).(mem := ptnEntries[..])
      {
        var a := ptnEntries[i].attributes;
        if Contains(ptnEntries[i].name, activeSlot) {
          a := With(a, ACTIVE_VAL);
        } else {
          a := Without(a, ACTIVE_VAL);
        }
        StoreAttributes(i, a);
        assert ptnEntries[..] == MarkedTable(was, i + 1, activeSlot);
      }
      UpdatePartitionAttributes(PARTITION_ATTRIBUTES);
    }

    // ---- exchanging type GUIDs ----

    /** Entries are named by index; -1 stands for a null pointer. */
    method SwapPtnGuid(p1: int, p2: int)
      requires Valid() && -1 <= p1 < MAX_NUM_PARTITIONS && -1 <= p2 < MAX_NUM_PARTITIONS
      modifies ptnEntries
      ensures ptnEntries[..] == if p1 < 0 || p2 < 0 then old(ptnEntries[..]) else Exchanged(old(ptnEntries[..]), p1, p2)
      ensures Valid()
    {
      if p1 < 0 || p2 < 0 {
        return;
      }
      var temp := ptnEntries[p1].typeGuid;
      ptnEntries[p1] := ptnEntries[p1].(typeGuid := ptnEntries[p2].typeGuid);
      ptnEntries[p2] := ptnEntries[p2].(typeGuid := temp);
      assert ptnEntries[..] == Exchanged(old(ptnEntries[..]), p1, p2);
    }

    /** Builds the list of base names; a new node becomes the head. */
    method GetMultiSlotPartsList()
      requires Valid() && headNode == [] && NamesFit(ptnEntries[..])
      modifies this`headNode
      ensures headNode == PartsList(ptnEntries[..], partitionCount, partitionCount)
      ensures Valid() && State() == old(State()).(parts := headNode)
    {
      hide Contains, LunOk;
      PartsFit(ptnEntries[..], partitionCount, partitionCount);
      for i := 0 to partitionCount
        invariant headNode == PartsList(ptnEntries[..], partitionCount, i)
      {
        var searchString := ptnEntries[i].name;
        if searchString == [] {
          NotSlotted();
          continue;
        }
        var found := false;
        for j := i + 1 to partitionCount
          invariant !found && forall l :: i < l < j ==> !(Slotted(searchString) && Siblings(ptnEntries[l].name, searchString))
        {
          var name := ptnEntries[j].name;
          if name == [] {
            continue;
          }
          if |name| == |searchString| && name[..|name| - 1] == searchString[..|searchString| - 1]
             && (Contains(searchString, SUFFIX_A) || Contains(searchString, SUFFIX_B)) {
            found := true;
            SlottedHasSuffix(searchString);
            assert Listed(ptnEntries[..], partitionCount, i);
            headNode := [searchString[..|searchString| - 2]] + headNode;
            break;
          }
        }
        if !found {
          assert !Listed(ptnEntries[..], partitionCount, i);
        }
      }
    }

    /** The pass over one list node: the last match of either name wins. */
    method SwapSlotGuids(partName: Str16, setActive: Str16, setInactive: Str16)
      requires Valid() && setInactive == Inactive(setActive)
      modifies ptnEntries
      ensures Valid() && ptnEntries[..] == SwapNode(old(ptnEntries[..]), partitionCount, partName, setActive)
    {
      hide HasPrefix, LunOk;
      var curSlot := Cat(partName, setInactive);
      var newSlot := Cat(partName, setActive);
      var ptnCurrent, ptnNew := -1, -1;
      for i := 0 to partitionCount
        invariant ptnCurrent == LastCurrent(ptnEntries[..], i, curSlot)
        invariant ptnNew == LastNew(ptnEntries[..], i, curSlot, newSlot)
      {
        if HasPrefix(ptnEntries[i].name, curSlot) {
          ptnCurrent := i;
        } else if HasPrefix(ptnEntries[i].name, newSlot) {
          ptnNew := i;
        }
      }
      SwapPtnGuid(ptnCurrent, ptnNew);
    }

    method SwitchPtnSlots(setActive: Str16)
      requires Valid() && NamesFit(ptnEntries[..])
      modifies this`headNode, this`bootLun, this`luns, ptnEntries, ptnEntriesBak
      ensures Valid() && State() == SlotSpec.SwitchPtnSlots(old(State()), setActive)
    {
      hide HasPrefix, LunOk, BlocksOk, SwapNode, PartsList;
      var setInactive := SUFFIX_A;
      if HasPrefix(setActive, SUFFIX_A) {
        setInactive := SUFFIX_B;
      }
      if headNode == [] {
        GetMultiSlotPartsList();
      }
      ghost var was, parts := ptnEntries[..], headNode;
      ghost var done := SwapNodes(was, partitionCount, parts, setActive);
      for n := 0 to |headNode|
        invariant Valid() && State() == old(State()).(mem := ptnEntries[..], parts := parts)
        invariant SwapNodes(ptnEntries[..], partitionCount, parts[n..], setActive) == done
      {
        assert parts[n..][1..] == parts[n + 1..];
        SwapSlotGuids(headNode[n], setActive, setInactive);
      }
      if device.Ufs? {
        var ufsBootLun := bootLun;
        if ufsBootLun == 1 && HasPrefix(setActive, SUFFIX_B) {
          ufsBootLun := 2;
        } else if ufsBootLun == 2 && HasPrefix(setActive, SUFFIX_A) {
          ufsBootLun := 1;
        }
        bootLun := ufsBootLun;
      }
      UpdatePartitionAttributes(PARTITION_GUID);
    }

    // ---- setting the active slot ----

    /** The attribute part of SetActiveSlot. */
    method RefreshSlots(newSlot: Str16, alternateSlot: Str16, resetSuccessBit: bool, setSuccessBit: bool) returns (status: Status)
      requires Valid() && alternateSlot == Inactive(newSlot)
      modifies this`luns, ptnEntries, ptnEntriesBak
      ensures Valid() && (status, State()) == Refresh(old(State()), newSlot, resetSuccessBit, setSuccessBit)
    {
      hide With, Without, BootIndex, LunOk, BlocksOk, Successful, Inactive;
      var k := GetBootPartitionEntry(newSlot);
      if k == partitionCount {
        return NotFound;
      }
      var a := With(ptnEntries[k].attributes, PRIORITY_VAL | ACTIVE_VAL | MAX_RETRY_COUNT_VAL);
      a := Without(a, UNBOOTABLE_VAL);
      if resetSuccessBit && Successful(a) {
        a := Without(a, SUCCESSFUL_VAL);
      }
      if setSuccessBit && !Successful(a) {
        a := With(a, SUCCESSFUL_VAL);
      }
      assert a == Activated(ptnEntries[k].attributes, resetSuccessBit, setSuccessBit);
      StoreAttributes(k, a);
      k := GetBootPartitionEntry(alternateSlot);
      if k == partitionCount {
        return NotFound;
      }
      a := Without(ptnEntries[k].attributes, PRIORITY_VAL | ACTIVE_VAL);
      a := With(a, SECOND_PRIORITY);
      StoreAttributes(k, a);
      UpdatePartitionAttributes(PARTITION_ATTRIBUTES);
      return Success;
    }

    method SetActiveSlot(newSlot: Str16, resetSuccessBit: bool, setSuccessBit: bool) returns (status: Status)
      requires Valid() && NamesFit(ptnEntries[..])
      modifies this`headNode, this`bootLun, this`luns, ptnEntries, ptnEntriesBak
      ensures Valid() && (status, State()) == SlotSpec.SetActiveSlot(old(State()), newSlot, resetSuccessBit, setSuccessBit)
    {
      hide HasPrefix, LunOk, BlocksOk, SlotSpec.GetActiveSlot, Refresh, SlotSpec.SwitchPtnSlots, SlotSpec.MarkPtnActive;
      NamesKeptByGet(State());
      var currentSlot;
      status, currentSlot := GetActiveSlot();
      if status != Success {
        return;
      }
      var alternateSlot := SUFFIX_A;
      if HasPrefix(newSlot, SUFFIX_A) {
        alternateSlot := SUFFIX_B;
      }
      status := RefreshSlots(newSlot, alternateSlot, resetSuccessBit, setSuccessBit);
      if status != Success {
        return;
      }
      if HasPrefix(newSlot, currentSlot) {
        if device.Ufs? {
          if bootLun == 1 && HasPrefix(currentSlot, SUFFIX_B) {
            bootLun := 2;
          } else if bootLun == 2 && HasPrefix(currentSlot, SUFFIX_A) {
            bootLun := 1;
          }
        }
      } else {
        SwitchPtnSlots(newSlot);
        MarkPtnActive(newSlot);
      }
    }
  }
}
