/**
 * Disks on which an attribute update goes wrong, made from disks in step: a primary header
 * whose entry array is refused, and backup slots that hold another type GUID
 * (PartitionTableUpdate.c, lines 292-374).
 */
module GptStale {
  import opened Crc32Spec
  import opened GptFormat
  import opened SlotTypes
  import opened SlotSpec
  import opened GptUpdate
  import opened CopyUpdate
  import opened GptSync
  import opened GptBackup

  // ---- copies that hold what memory holds ----

  /** A slot of a copy holds the type GUID and attributes of an entry. */
  predicate SlotHas(l: Lun, backup: bool, k: nat, e: Entry)
    requires l.Lun? && LunOk(l) && k < MAX_NUM_PARTITIONS
  {
    var at := SlotAt(l, backup, k);
    GuidAt(l.bytes, at) == e.typeGuid && AttributesAt(l.bytes, at) == e.attributes
  }

  /** The copy on LUN k holds memory's fields in all its records. */
  ghost predicate CopyHas(st: State, p: seq<Place>, k: nat, backup: bool)
    requires Framed(st, p)
  {
    forall i :: 0 <= i < |p| && RecordOf(p, i, k) ==> SlotHas(st.luns[k], backup, p[i].handle.slot, st.mem[i])
  }

  /** A primary in step. */
  lemma PrimaryHas(st: State, p: seq<Place>, k: nat)
    requires InStep(st, p)
    ensures CopyHas(st, p, k, false)
  {
    hide TableFits, DiskOrder, LunOk, SlotAt, GuidAt, AttributesAt;
    forall i | 0 <= i < |p| && RecordOf(p, i, k)
      ensures SlotHas(st.luns[k], false, p[i].handle.slot, st.mem[i])
    {
      assert Holds(st.luns[p[i].lun], p[i].handle.slot, st.bak[i]);
      HoldsFields(st.luns[k], p[i].handle.slot, st.mem[i]);
    }
  }

  lemma HoldsFields(l: Lun, k: nat, e: Entry)
    requires l.Lun? && LunOk(l) && k < MAX_NUM_PARTITIONS && Holds(l, k, e)
    ensures SlotHas(l, false, k, e)
  {
    hide GetLe64, NameFrom;
  }

  /** A backup that agrees. */
  lemma BackupHas(st: State, p: seq<Place>, k: nat)
    requires Framed(st, p) && BackupAgrees(st, PARTITION_ALL)
    ensures CopyHas(st, p, k, true)
  {
    hide TableFits, DiskOrder, LunOk, SlotAt, GuidAt, AttributesAt, Rank, Data1Zero;
    forall i | 0 <= i < |p| && RecordOf(p, i, k)
      ensures SlotHas(st.luns[k], true, p[i].handle.slot, st.mem[i])
    {
      OnDiskIsRecord(st, p, i);
      EntryRank(st, p, i);
    }
  }

  /** A copy that holds memory's type GUIDs lets every entry take its own slot. */
  lemma OwnSlotTaken(st: State, p: seq<Place>, ut: UpdateType, k: nat, backup: bool, i: nat)
    requires Framed(st, p) && k < |st.luns| && st.luns[k].Lun? && i < |p| && RecordOf(p, i, k)
    requires forall m :: 0 <= m < |p| && RecordOf(p, m, k) ==>
      GuidAt(st.luns[k].bytes, SlotAt(st.luns[k], backup, p[m].handle.slot)) == st.mem[m].typeGuid
    ensures var j := LunJob(st.mem, st.count, k, ut, st.luns[k], backup);
      Takes(j, i) && SlotFor(j, i) == SlotAt(st.luns[k], backup, p[i].handle.slot)
  {
    hide TableFits, DiskOrder, LunOk, GuidAt, Takes, SlotFor, PassesAtRank;
    var j := LunJob(st.mem, st.count, k, ut, st.luns[k], backup);
    forall m | 0 <= m < st.count
      ensures PassesAtRank(j, m)
    {
      OwnGuidPasses(st, p, ut, k, backup, m);
    }
    RecordTakes(st, p, ut, k, st.luns[k], backup, i);
  }

  lemma OwnGuidPasses(st: State, p: seq<Place>, ut: UpdateType, k: nat, backup: bool, m: nat)
    requires Framed(st, p) && k < |st.luns| && st.luns[k].Lun? && m < st.count
    requires forall m :: 0 <= m < |p| && RecordOf(p, m, k) ==>
      GuidAt(st.luns[k].bytes, SlotAt(st.luns[k], backup, p[m].handle.slot)) == st.mem[m].typeGuid
    ensures PassesAtRank(LunJob(st.mem, st.count, k, ut, st.luns[k], backup), m)
  {
    hide TableFits, DiskOrder, LunOk, GuidAt, Selected;
    if Selected(st.mem[m], k) {
      SelectedIsRecord(st.mem, p, m, k);
      EntryRank(st, p, m);
    }
  }

  /** Such a copy, holding the attributes too, needs no rewriting. */
  lemma CleanCopy(st: State, p: seq<Place>, ut: UpdateType, k: nat, backup: bool)
    requires Framed(st, p) && k < |st.luns| && st.luns[k].Lun? && CopyHas(st, p, k, backup)
    ensures !Dirty(LunJob(st.mem, st.count, k, ut, st.luns[k], backup))
  {
    hide TableFits, DiskOrder, LunOk, GuidAt, AttributesAt, Takes, SlotFor, SlotAt, RecordOf;
    var j := LunJob(st.mem, st.count, k, ut, st.luns[k], backup);
    if i :| 0 <= i < j.count && Writes(j, i) {
      TakerIsRecord(st, p, ut, k, st.luns[k], backup, i);
      OwnSlotTaken(st, p, ut, k, backup, i);
    }
  }

  // ---- a table with other attributes in entry i ----

  lemma ChangeReady(st: State, p: seq<Place>, i: nat, a: bv64)
    requires InStep(st, p) && i < |p| && p[i].handle.Record?
    ensures i < |st.mem| && StateOk(st.(mem := SetAttributes(st.mem, i, a)))
    ensures Framed(st.(mem := SetAttributes(st.mem, i, a)), p) && Ready(st.(mem := SetAttributes(st.mem, i, a)), p, PARTITION_ATTRIBUTES)
  {
    hide DiskOrder, LunOk, Holds, Data1Zero;
    var st1 := st.(mem := SetAttributes(st.mem, i, a));
    assert TableFits(st1.mem, p);
    assert Framed(st1, p);
    assert Mirrored(st1, p);
  }

  /** Copies of other LUNs hold the changed table as they held the old. */
  lemma ChangeHas(st: State, p: seq<Place>, i: nat, a: bv64, l: nat, backup: bool)
    requires Framed(st, p) && i < |p| && i < |st.mem| && l != p[i].lun && CopyHas(st, p, l, backup)
    requires Framed(st.(mem := SetAttributes(st.mem, i, a)), p)
    ensures CopyHas(st.(mem := SetAttributes(st.mem, i, a)), p, l, backup)
  {
    hide TableFits, DiskOrder, LunOk, SlotHas;
    var st1 := st.(mem := SetAttributes(st.mem, i, a));
    forall m | 0 <= m < |p| && RecordOf(p, m, l)
      ensures SlotHas(st1.luns[l], backup, p[m].handle.slot, st1.mem[m])
    {
      assert SlotHas(st.luns[l], backup, p[m].handle.slot, st.mem[m]);
    }
  }

  /** On the other LUNs there is nothing to write. */
  lemma OtherLunClean(st: State, p: seq<Place>, i: nat, a: bv64, l: nat)
    requires InStep(st, p) && i < |p| && p[i].handle.Record? && l < |st.luns| && l != p[i].lun && CopyHas(st, p, l, true)
    ensures i < |st.mem| && StateOk(st.(mem := SetAttributes(st.mem, i, a)))
    ensures LunClean(st.(mem := SetAttributes(st.mem, i, a)), PARTITION_ATTRIBUTES, l)
  {
    hide LunOk, Dirty, SlotHas, CopyHas, Framed;
    ChangeReady(st, p, i, a);
    PrimaryHas(st, p, l);
    var st1 := st.(mem := SetAttributes(st.mem, i, a));
    if st.luns[l].Lun? {
      ChangeHas(st, p, i, a, l, false);
      ChangeHas(st, p, i, a, l, true);
      CleanCopy(st1, p, PARTITION_ATTRIBUTES, l, false);
      CleanCopy(st1, p, PARTITION_ATTRIBUTES, l, true);
    }
  }

  /** On entry i's LUN the primary needs rewriting. */
  lemma ChangedDirty(st: State, p: seq<Place>, i: nat, a: bv64)
    requires InStep(st, p) && i < |p| && p[i].handle.Record? && i < |st.mem| && a != st.mem[i].attributes
    ensures p[i].lun < |st.luns| && st.luns[p[i].lun].Lun? && StateOk(st.(mem := SetAttributes(st.mem, i, a)))
    ensures Dirty(LunJob(SetAttributes(st.mem, i, a), st.count, p[i].lun, PARTITION_ATTRIBUTES, st.luns[p[i].lun], false))
  {
    ChangeReady(st, p, i, a);
    PrimaryHas(st, p, p[i].lun);
    RecordLun(st, p, i);
    var st1, k := st.(mem := SetAttributes(st.mem, i, a)), p[i].lun;
    hide InStep, Framed, LunOk, GuidAt, AttributesAt, Takes, SlotFor, SlotAt;
    forall m | 0 <= m < |p| && RecordOf(p, m, k)
      ensures m < |st1.mem| && p[m].handle.slot < MAX_NUM_PARTITIONS
      ensures GuidAt(st1.luns[k].bytes, SlotAt(st1.luns[k], false, p[m].handle.slot)) == st1.mem[m].typeGuid
    {
      RecordLun(st, p, m);
      assert SlotHas(st.luns[k], false, p[m].handle.slot, st.mem[m]);
    }
    OwnSlotTaken(st1, p, PARTITION_ATTRIBUTES, k, false, i);
    assert SlotHas(st.luns[k], false, p[i].handle.slot, st.mem[i]);
    assert Writes(LunJob(st1.mem, st1.count, k, PARTITION_ATTRIBUTES, st1.luns[k], false), i);
  }

  lemma RecordLun(st: State, p: seq<Place>, i: nat)
    requires Framed(st, p) && i < |p| && p[i].handle.Record?
    ensures p[i].lun < |st.luns| && st.luns[p[i].lun].Lun? && p[i].handle.slot < MAX_NUM_PARTITIONS && i < |st.mem| && i < st.count
  {
    hide TableFits, DiskOrder;
  }

  // ---- a header that is refused ----

  /** The LUN with a primary header that declares 256 entries of 128 bytes, as the UEFI Specification allows. */
  function Oversized(l: Lun): (l': Lun)
    requires l.Lun? && LunOk(l)
    ensures l'.Lun? && LunOk(l') && l'.blockSize == l.blockSize && |l'.bytes| == |l.bytes|
  {
    l.(bytes := Put(l.bytes, HeaderAt(l, false) + ENTRY_COUNT_OFFSET, Le32(256) + Le32(128)))
  }

  lemma OversizedIs(l: Lun)
    requires l.Lun? && LunOk(l)
    ensures !TableBytesOk(Header(Oversized(l), false))
    ensures forall x :: 0 <= x < |l.bytes| && !(HeaderAt(l, false) <= x < HeaderAt(l, false) + l.blockSize) ==>
      Oversized(l).bytes[x] == l.bytes[x]
  {
    hide Le32, GetLe32;
    var h := HeaderAt(l, false);
    var header, words := Header(Oversized(l), false), Le32(256) + Le32(128);
    PutInSlice(l.bytes, h + ENTRY_COUNT_OFFSET, words, h, h + l.blockSize);
    PutReads(Header(l, false), ENTRY_COUNT_OFFSET, words);
    assert header[ENTRY_COUNT_OFFSET..ENTRY_COUNT_OFFSET + 8] == words;
    hide Put, Oversized, Header;
    SliceOfSlice(header, ENTRY_COUNT_OFFSET, ENTRY_COUNT_OFFSET + 8, 0, 4);
    SliceOfSlice(header, ENTRY_COUNT_OFFSET, ENTRY_COUNT_OFFSET + 8, 4, 8);
    assert words[0..4] == Le32(256) && words[4..8] == Le32(128);
    StoredLe32(header, ENTRY_COUNT_OFFSET, 256);
    StoredLe32(header, ENTRY_SIZE_OFFSET, 128);
    assert TableBytes(header) == Times(256, 128);
  }

  /** Nothing that the engine reads into its table is changed, nor the backup. */
  lemma OversizedTables(l: Lun, backup: bool, k: nat, lun: nat)
    requires l.Lun? && LunOk(l) && k < MAX_NUM_PARTITIONS
    ensures var l', at := Oversized(l), SlotAt(l, backup, k);
      && SlotAt(l', backup, k) == at && Decode(l'.bytes, at, lun) == Decode(l.bytes, at, lun)
      && GuidAt(l'.bytes, at) == GuidAt(l.bytes, at) && AttributesAt(l'.bytes, at) == AttributesAt(l.bytes, at)
  {
    var l', at := Oversized(l), SlotAt(l, backup, k);
    assert at >= HeaderAt(l, false) + l.blockSize;
    OversizedIs(l);
    hide Oversized, Decode, GuidAt, AttributesAt;
    SameDecode(l.bytes, l'.bytes, at, lun);
    SameSlot(l'.bytes, l.bytes, at);
  }

  /** The state with LUN k replaced. */
  function WithLun(st: State, k: nat, l: Lun): State
    requires k < |st.luns|
  {
    st.(luns := st.luns[k := l])
  }

  lemma OversizedInStep(st: State, p: seq<Place>, k: nat)
    requires InStep(st, p) && BackupAgrees(st, PARTITION_ALL) && k < |st.luns| && st.luns[k].Lun? && StateOk(st)
    ensures var bad := WithLun(st, k, Oversized(st.luns[k]));
      InStep(bad, p) && forall l :: 0 <= l < |st.luns| ==> CopyHas(bad, p, l, true)
  {
    hide TableFits, DiskOrder, LunOk, Oversized, BackupAgrees, Decode, GuidAt, AttributesAt, SlotAt;
    var bad := WithLun(st, k, Oversized(st.luns[k]));
    assert Framed(bad, p);
    forall i | 0 <= i < |p| && p[i].handle.Record?
      ensures Holds(bad.luns[p[i].lun], p[i].handle.slot, bad.bak[i])
    {
      assert Holds(st.luns[p[i].lun], p[i].handle.slot, st.bak[i]);
      OversizedTables(st.luns[k], false, p[i].handle.slot, bad.bak[i].lun);
    }
    forall l | 0 <= l < |st.luns|
      ensures CopyHas(bad, p, l, true)
    {
      BackupHas(st, p, l);
      forall i | 0 <= i < |p| && RecordOf(p, i, l)
        ensures SlotHas(bad.luns[l], true, p[i].handle.slot, bad.mem[i])
      {
        assert SlotHas(st.luns[l], true, p[i].handle.slot, st.mem[i]);
        OversizedTables(st.luns[k], true, p[i].handle.slot, 0);
      }
    }
  }

  /**
   * From any disk in step: once the primary header of partition i's LUN declares 256
   * entries, a change of that partition's attributes never reaches the disk, although
   * memory and shadow agree and every later update is idle.
   */
  lemma OversizedGoesStale(st: State, p: seq<Place>, i: nat, a: bv64)
    requires InStep(st, p) && BackupAgrees(st, PARTITION_ALL) && !st.device.UnknownDevice? && StateOk(st)
    requires i < |p| && p[i].handle.Record? && i < |st.mem| && a != st.mem[i].attributes
    ensures p[i].lun < |st.luns| && st.luns[p[i].lun].Lun?
    ensures var bad := WithLun(st, p[i].lun, Oversized(st.luns[p[i].lun]));
      var t := SetAttributes(st.mem, i, a);
      && InStep(bad, p) && StateOk(bad.(mem := t)) &&
      var r := UpdatePartitionAttributes(bad.(mem := t), PARTITION_ATTRIBUTES);
      && r.luns == bad.luns && r.mem == r.bak == t && !InStep(r, p)
      && forall later :: UpdatePartitionAttributes(r, later) == r
  {
    hide InStep, LunOk, Oversized, TableBytesOk, Header, Dirty, LunStops, FirstStop, BackupAgrees, UpdatePartitionAttributes;
    StepRecord(st, p, i);
    var k := p[i].lun;
    OversizedInStep(st, p, k);
    OversizedIs(st.luns[k]);
    var bad := WithLun(st, k, Oversized(st.luns[k]));
    ChangeReady(bad, p, i, a);
    ChangedDirty(bad, p, i, a);
    var st1 := bad.(mem := SetAttributes(st.mem, i, a));
    forall l | 0 <= l < |st1.luns| && l != k
      ensures LunClean(st1, PARTITION_ATTRIBUTES, l)
    {
      OtherLunClean(bad, p, i, a, l);
    }
    StopIs(st1, PARTITION_ATTRIBUTES, k);
    OneChange(bad, p, i, a);
    RefusedGoesStale(st1, p, PARTITION_ATTRIBUTES);
  }

  /** On such a disk ClearUnbootable reports success, and the partition stays as it is on the disk. */
  lemma ClearNotStored(st: State, p: seq<Place>, suffix: Str16, i: nat)
    requires InStep(st, p) && BackupAgrees(st, PARTITION_ALL) && !st.device.UnknownDevice? && StateOk(st)
    requires i < |p| && p[i].handle.Record? && i < st.count && i == BootIndex(st.mem, st.count, suffix)
    requires ClearedUnbootable(st.mem[i].attributes) != st.mem[i].attributes
    ensures p[i].lun < |st.luns| && st.luns[p[i].lun].Lun? && StateOk(WithLun(st, p[i].lun, Oversized(st.luns[p[i].lun])))
    ensures var bad := WithLun(st, p[i].lun, Oversized(st.luns[p[i].lun]));
      var (status, r) := ClearUnbootable(bad, suffix);
      && status == Success && r.mem == SetAttributes(st.mem, i, ClearedUnbootable(st.mem[i].attributes)) && r.luns == bad.luns
      && !InStep(r, p) && forall later :: UpdatePartitionAttributes(r, later) == r
  {
    hide InStep, LunOk, Oversized, BackupAgrees, UpdatePartitionAttributes, ClearedUnbootable, BootIndex;
    OversizedGoesStale(st, p, i, ClearedUnbootable(st.mem[i].attributes));
  }

  lemma StepRecord(st: State, p: seq<Place>, i: nat)
    requires InStep(st, p) && i < |p| && p[i].handle.Record?
    ensures p[i].lun < |st.luns| && st.luns[p[i].lun].Lun? && StateOk(st)
  {
    hide TableFits, DiskOrder;
  }

  /** The LUN that stops the update, when no other has anything to write. */
  lemma StopIs(st: State, ut: UpdateType, k: nat)
    requires StateOk(st) && k < |st.luns| && st.luns[k].Lun? && CopyStops(st, ut, k, false)
    requires forall l :: 0 <= l < |st.luns| && l != k ==> LunClean(st, ut, l)
    ensures FirstStop(st, ut, 0) == k && PrimaryRefused(st, ut, k)
  {
    hide LunOk, LunStops, LunClean, CopyStops, FirstStop;
    FirstStopIs(st, ut, 0);
    StoppingLun(st, ut, k);
    forall l | 0 <= l < |st.luns| && l != k
      ensures !LunStops(st, ut, l)
    {
      CleanPasses(st, ut, l);
    }
  }

  lemma StoppingLun(st: State, ut: UpdateType, k: nat)
    requires StateOk(st) && k < |st.luns| && st.luns[k].Lun? && CopyStops(st, ut, k, false)
    ensures LunStops(st, ut, k)
  {
    hide LunOk, CopyStops;
  }

  lemma CleanPasses(st: State, ut: UpdateType, k: nat)
    requires StateOk(st) && k < |st.luns| && LunClean(st, ut, k)
    ensures !LunStops(st, ut, k)
  {
    hide LunOk, Dirty, TableBytesOk, Header;
  }

  lemma OneChange(st: State, p: seq<Place>, i: nat, a: bv64)
    requires InStep(st, p) && i < |p| && p[i].handle.Record? && i < |st.mem| && Framed(st.(mem := SetAttributes(st.mem, i, a)), p)
    ensures NoChangeBehind(st.(mem := SetAttributes(st.mem, i, a)), p, p[i].lun)
    ensures a != st.mem[i].attributes ==> SetAttributes(st.mem, i, a) != st.bak
  {
    hide TableFits, DiskOrder;
    if a != st.mem[i].attributes {
      assert SetAttributes(st.mem, i, a)[i] != st.bak[i];
    }
  }

  // ---- a backup slot with another GUID ----

  /** LUN k with the type GUID in slot n of the backup table overwritten. */
  function Foreign(l: Lun, n: nat, g: Guid): (l': Lun)
    requires l.Lun? && LunOk(l) && n < MAX_NUM_PARTITIONS
    ensures l'.Lun? && LunOk(l') && l'.blockSize == l.blockSize && |l'.bytes| == |l.bytes|
  {
    l.(bytes := Put(l.bytes, SlotAt(l, true, n), g))
  }

  /** Of the primary table nothing changes, of the backup table one type GUID. */
  lemma ForeignIs(l: Lun, n: nat, g: Guid, k: nat, lun: nat)
    requires l.Lun? && LunOk(l) && n < MAX_NUM_PARTITIONS && k < MAX_NUM_PARTITIONS
    ensures var l' := Foreign(l, n, g);
      && SlotAt(l', true, k) == SlotAt(l, true, k) && SlotAt(l', false, k) == SlotAt(l, false, k)
      && GuidAt(l'.bytes, SlotAt(l, true, k)) == (if k == n then g else GuidAt(l.bytes, SlotAt(l, true, k)))
      && AttributesAt(l'.bytes, SlotAt(l, true, k)) == AttributesAt(l.bytes, SlotAt(l, true, k))
      && Decode(l'.bytes, SlotAt(l, false, k), lun) == Decode(l.bytes, SlotAt(l, false, k), lun)
  {
    var at := SlotAt(l, true, n);
    assert SlotAt(l, false, k) + PARTITION_ENTRY_SIZE <= at;
    assert k < n ==> SlotAt(l, true, k) + PARTITION_ENTRY_SIZE <= at;
    assert k > n ==> at + PARTITION_ENTRY_SIZE <= SlotAt(l, true, k);
    hide GetLe64, Decode, LunOk, SlotAt, GuidAt, AttributesAt;
    OverwrittenGuid(l.bytes, at, g, SlotAt(l, true, k));
    PutBehind(l.bytes, at, g, SlotAt(l, false, k), lun);
  }

  lemma PutBehind(b: seq<Byte>, at: nat, g: Guid, from: nat, lun: nat)
    requires at + 16 <= |b| && from + PARTITION_ENTRY_SIZE <= at
    ensures Decode(Put(b, at, g), from, lun) == Decode(b, from, lun)
  {
    hide Decode;
    SameDecode(b, Put(b, at, g), from, lun);
  }

  /** A type GUID written over another shows there, and leaves other slots and all attributes. */
  lemma OverwrittenGuid(b: seq<Byte>, at: nat, g: Guid, to: nat)
    requires at + PARTITION_ENTRY_SIZE <= |b| && to + PARTITION_ENTRY_SIZE <= |b|
    requires to == at || to + PARTITION_ENTRY_SIZE <= at || at + PARTITION_ENTRY_SIZE <= to
    ensures var c := Put(b, at, g);
      GuidAt(c, to) == (if to == at then g else GuidAt(b, to)) && AttributesAt(c, to) == AttributesAt(b, to)
  {
    var c := Put(b, at, g);
    hide GetLe64;
    PutReads(b, at, g);
    if to != at {
      PutKeeps(b, at, g, to, to + 16);
    }
    hide GuidAt, Put;
    assert forall x :: to + ATTRIBUTE_FLAG_OFFSET <= x < to + ATTRIBUTE_FLAG_OFFSET + 8 ==> c[x] == b[x];
    SameField64(c, b, to + ATTRIBUTE_FLAG_OFFSET);
  }

  lemma ForeignHeaders(l: Lun, n: nat, g: Guid, backup: bool)
    requires l.Lun? && LunOk(l) && n < MAX_NUM_PARTITIONS
    ensures Header(Foreign(l, n, g), backup) == Header(l, backup)
  {
    var l', h := Foreign(l, n, g), HeaderAt(l, backup);
    assert h + l.blockSize <= SlotAt(l, true, n) || SlotAt(l, true, n) + 16 <= h;
    assert forall x :: h <= x < h + l.blockSize ==> l'.bytes[x] == l.bytes[x];
  }

  /** The state with the backup GUID of partition n overwritten. */
  function Displacing(st: State, p: seq<Place>, n: nat, g: Guid): (bad: State)
    requires n < |p| && p[n].handle.Record? && PlacesOk(p, st.luns)
  {
    WithLun(st, p[n].lun, Foreign(st.luns[p[n].lun], p[n].handle.slot, g))
  }

  /** Everything stays in step, and the backup agrees in all but that GUID. */
  lemma DisplacingInStep(st: State, p: seq<Place>, n: nat, g: Guid)
    requires InStep(st, p) && BackupAgrees(st, PARTITION_ALL) && n < |p| && p[n].handle.Record?
    ensures var bad := Displacing(st, p, n, g);
      && InStep(bad, p)
      && forall i: nat :: i < |p| && p[i].handle.Record? ==>
           && OnDisk(bad, i) && BackupGuid(bad, i) == (if i == n then g else st.mem[i].typeGuid)
           && BackupAttributes(bad, i) == st.mem[i].attributes
  {
    hide TableFits, DiskOrder, LunOk, Foreign, Decode, GuidAt, AttributesAt, SlotAt, OnDisk, BackupAgrees, BackupGuid, BackupAttributes;
    var bad, k := Displacing(st, p, n, g), p[n].lun;
    assert Framed(bad, p);
    forall i | 0 <= i < |p| && p[i].handle.Record?
      ensures Holds(bad.luns[p[i].lun], p[i].handle.slot, bad.bak[i])
    {
      assert Holds(st.luns[p[i].lun], p[i].handle.slot, st.bak[i]);
      ForeignIs(st.luns[k], p[n].handle.slot, g, p[i].handle.slot, bad.bak[i].lun);
    }
    forall i: nat | i < |p| && p[i].handle.Record?
      ensures OnDisk(bad, i) && BackupGuid(bad, i) == (if i == n then g else st.mem[i].typeGuid)
      ensures BackupAttributes(bad, i) == st.mem[i].attributes
    {
      DisplacedFields(st, p, n, g, i);
    }
  }

  /** No header changes. */
  lemma DisplacingAccepts(st: State, p: seq<Place>, n: nat, g: Guid)
    requires Framed(st, p) && Accepting(st.luns, p) && n < |p| && p[n].handle.Record?
    ensures var bad := Displacing(st, p, n, g);
      (forall l :: 0 <= l < |bad.luns| ==> LunOk(bad.luns[l])) && PlacesOk(p, bad.luns) && Accepting(bad.luns, p)
  {
    hide TableFits, DiskOrder, Foreign, TableBytesOk, Header;
    var l, k := st.luns[p[n].lun], p[n].handle.slot;
    ForeignHeaders(l, k, g, false);
    ForeignHeaders(l, k, g, true);
  }

  lemma DisplacedFields(st: State, p: seq<Place>, n: nat, g: Guid, i: nat)
    requires Framed(st, p) && BackupAgrees(st, PARTITION_ALL) && n < |p| && p[n].handle.Record? && i < |p| && p[i].handle.Record?
    requires Framed(Displacing(st, p, n, g), p)
    ensures var bad := Displacing(st, p, n, g);
      && OnDisk(bad, i) && BackupGuid(bad, i) == (if i == n then g else st.mem[i].typeGuid)
      && BackupAttributes(bad, i) == st.mem[i].attributes
  {
    hide TableFits, DiskOrder, LunOk, Decode, GuidAt, AttributesAt, SlotAt, Rank, Data1Zero;
    var bad, l := Displacing(st, p, n, g), st.luns[p[n].lun];
    OnDiskIsRecord(st, p, i);
    OnDiskIsRecord(bad, p, i);
    EntryRank(st, p, i);
    EntryRank(bad, p, i);
    ForeignIs(l, p[n].handle.slot, g, p[i].handle.slot, 0);
    SlotsDiffer(st, p, n, i);
  }

  lemma SlotsDiffer(st: State, p: seq<Place>, n: nat, i: nat)
    requires Framed(st, p) && n < |p| && p[n].handle.Record? && i < |p| && p[i].handle.Record?
    ensures p[n].lun == p[i].lun && p[n].handle.slot == p[i].handle.slot ==> n == i
  {
    hide TableFits, DiskOrder, Data1Zero;
    if p[n].lun == p[i].lun {
      EntryRank(st, p, n);
      EntryRank(st, p, i);
      SelectedIsRecordAt(st, p, n);
      SelectedIsRecordAt(st, p, i);
      if n < i {
        RankMonotone(st.mem, n, i, p[n].lun);
      } else if i < n {
        RankMonotone(st.mem, i, n, p[n].lun);
      }
    }
  }

  lemma SelectedIsRecordAt(st: State, p: seq<Place>, i: nat)
    requires Framed(st, p) && i < |p| && p[i].handle.Record?
    ensures Selected(st.mem[i], p[i].lun)
  {
    hide TableFits, DiskOrder, Data1Zero;
    PlaceFits(st, p, i);
  }

  /** No entry of partition n's LUN has the GUID. */
  ghost predicate NoOneHas(st: State, p: seq<Place>, n: nat, g: Guid)
    requires Framed(st, p) && n < |p|
  {
    forall i :: 0 <= i < |p| && RecordOf(p, i, p[n].lun) ==> st.mem[i].typeGuid != g
  }

  /** Entry m is the first from n on that has the GUID. */
  ghost predicate FirstWith(st: State, p: seq<Place>, n: nat, m: nat, g: Guid)
    requires Framed(st, p) && n < |p|
  {
    && n < m < |p| && RecordOf(p, m, p[n].lun) && st.mem[m].typeGuid == g
    && forall i :: n <= i < m && RecordOf(p, i, p[n].lun) ==> st.mem[i].typeGuid != g
  }

  /** In such a disk, whatever attributes are changed, entry n's slot is the first that refuses its entry. */
  lemma ForeignFirst(bad: State, p: seq<Place>, n: nat, g: Guid)
    requires Framed(bad, p) && n < |p| && p[n].handle.Record? && !Data1Zero(g)
    requires forall i: nat :: i < |p| && p[i].handle.Record? ==>
      OnDisk(bad, i) && BackupGuid(bad, i) == if i == n then g else bad.mem[i].typeGuid
    ensures NoOneHas(bad, p, n, g) ==> FirstForeign(bad, n)
    ensures forall m: nat :: FirstWith(bad, p, n, m, g) ==> Displaced(bad, n, m)
  {
    hide TableFits, DiskOrder, OnDisk, BackupGuid, Data1Zero, LunOk;
    forall i: nat | OnDisk(bad, i)
      ensures i < |p| && p[i].handle.Record? && bad.mem[i].lun == p[i].lun
    {
      OnDiskIsRecord(bad, p, i);
      PlaceFits(bad, p, i);
    }
    assert forall i: nat :: i < |p| && p[i].handle.Record? ==> bad.mem[i].lun == p[i].lun;
  }

  /**
   * From any disk in step whose backups agree: once the backup GUID of partition n is
   * overwritten by one that no partition of the LUN has, a change of its attributes does not
   * reach the backup.
   */
  lemma ForeignInput(st: State, p: seq<Place>, n: nat, g: Guid, a: bv64)
    requires InStep(st, p) && Accepting(st.luns, p) && BackupAgrees(st, PARTITION_ALL) && !st.device.UnknownDevice?
    requires n < |p| && p[n].handle.Record? && n < |st.mem| && a != st.mem[n].attributes
    requires !Data1Zero(g) && NoOneHas(st, p, n, g)
    ensures var bad := Displacing(st, p, n, g).(mem := SetAttributes(st.mem, n, a));
      && Ready(bad, p, PARTITION_ATTRIBUTES) && FirstForeign(bad, n) && StateOk(bad)
      && !BackupAgrees(UpdatePartitionAttributes(bad, PARTITION_ATTRIBUTES), PARTITION_ATTRIBUTES)
  {
    hide InStep, LunOk, Accepting, BackupAgrees, OnDisk, BackupGuid, BackupAttributes, FirstForeign, UpdatePartitionAttributes, Data1Zero;
    var bad := Displaces(st, p, n, g, n, a);
    ForeignOnDisk(bad, n);
    SameLunOf(bad, p, n);
    ForeignSlotAgrees(bad, n, n);
    BackupsAgreeAfter(bad, p, PARTITION_ATTRIBUTES);
    assert !SlotAgrees(bad, PARTITION_ATTRIBUTES, n);
  }

  /**
   * Once it is overwritten by a later partition's, a change of that partition's attributes
   * lands in partition n's backup slot.
   */
  lemma DisplacedInput(st: State, p: seq<Place>, n: nat, m: nat, a: bv64)
    requires InStep(st, p) && Accepting(st.luns, p) && BackupAgrees(st, PARTITION_ALL) && !st.device.UnknownDevice?
    requires n < |p| && p[n].handle.Record? && m < |st.mem| && a != st.mem[m].attributes && n < |st.mem| && a != st.mem[n].attributes
    requires FirstWith(st, p, n, m, st.mem[m].typeGuid)
    ensures var bad := Displacing(st, p, n, st.mem[m].typeGuid).(mem := SetAttributes(st.mem, m, a));
      && Ready(bad, p, PARTITION_ATTRIBUTES) && Displaced(bad, n, m) && StateOk(bad)
      && !BackupAgrees(UpdatePartitionAttributes(bad, PARTITION_ATTRIBUTES), PARTITION_ATTRIBUTES)
      && var r := UpdatePartitionAttributes(bad, PARTITION_ATTRIBUTES);
         OnDisk(r, n) && BackupAttributes(r, n) == a && r.mem[n] == st.mem[n]
  {
    hide InStep, LunOk, Accepting, BackupAgrees, OnDisk, BackupGuid, BackupAttributes, Displaced, UpdatePartitionAttributes, Data1Zero;
    RecordNotBlank(st, p, m);
    var bad := Displaces(st, p, n, st.mem[m].typeGuid, m, a);
    DisplacedOnDisk(bad, n, m);
    SameLunOf(bad, p, n);
    LaterEntryTakes(bad, p, n, m);
    UpdateKeepsTable(bad, PARTITION_ATTRIBUTES);
    BackupsAgreeAfter(bad, p, PARTITION_ATTRIBUTES);
    assert !SlotAgrees(bad, PARTITION_ATTRIBUTES, n);
  }

  lemma RecordNotBlank(st: State, p: seq<Place>, i: nat)
    requires InStep(st, p) && i < |p| && p[i].handle.Record?
    ensures i < |st.mem| && !Data1Zero(st.mem[i].typeGuid)
  {
    hide TableFits, DiskOrder, Data1Zero;
    PlaceFits(st, p, i);
  }

  lemma SameLunOf(st: State, p: seq<Place>, i: nat)
    requires Framed(st, p) && i < |p| && p[i].handle.Record?
    ensures i < |st.mem| && st.mem[i].lun == p[i].lun < |st.luns|
  {
    hide TableFits, DiskOrder, Data1Zero;
    PlaceFits(st, p, i);
  }

  /** The state of the two inputs: ready, its update passes every LUN, and slot n refuses entry n. */
  lemma Displaces(st: State, p: seq<Place>, n: nat, g: Guid, i: nat, a: bv64) returns (bad: State)
    requires InStep(st, p) && Accepting(st.luns, p) && BackupAgrees(st, PARTITION_ALL) && !st.device.UnknownDevice?
    requires n < |p| && p[n].handle.Record? && i < |p| && p[i].handle.Record? && i < |st.mem| && a != st.mem[i].attributes
    requires !Data1Zero(g)
    ensures bad == Displacing(st, p, n, g).(mem := SetAttributes(st.mem, i, a))
    ensures StateOk(bad) && Framed(bad, p) && Ready(bad, p, PARTITION_ATTRIBUTES) && !bad.device.UnknownDevice?
    ensures forall k :: 0 <= k < |bad.luns| ==> Passed(bad, PARTITION_ATTRIBUTES, k)
    ensures OnDisk(bad, n) && BackupAttributes(bad, n) == st.mem[n].attributes
    ensures NoOneHas(st, p, n, g) ==> FirstForeign(bad, n)
    ensures forall m: nat :: FirstWith(st, p, n, m, g) ==> Displaced(bad, n, m)
  {
    hide LunOk, BackupAgrees, BackupGuid, BackupAttributes, FirstForeign, Displaced, Data1Zero, OnDisk, TableFits,
      DiskOrder, Accepting, FirstStop, Mirrored, Displacing;
    var d := Displacing(st, p, n, g);
    DisplacingInStep(st, p, n, g);
    DisplacingAccepts(st, p, n, g);
    DisplacingSame(st, p, n, g);
    ChangeReady(d, p, i, a);
    bad := d.(mem := SetAttributes(st.mem, i, a));
    AcceptingUnstopped(bad, p, PARTITION_ATTRIBUTES);
    OneChange(d, p, i, a);
    forall m: nat | m < |p| && p[m].handle.Record?
      ensures OnDisk(bad, m) && BackupGuid(bad, m) == (if m == n then g else bad.mem[m].typeGuid)
      ensures BackupAttributes(bad, m) == st.mem[m].attributes
    {
      SameBackup(d, p, bad.mem, m);
    }
    ForeignFirst(bad, p, n, g);
    SameGuids(st, bad, p, n, g);
  }

  lemma DisplacingSame(st: State, p: seq<Place>, n: nat, g: Guid)
    requires n < |p| && p[n].handle.Record? && PlacesOk(p, st.luns)
    ensures var d := Displacing(st, p, n, g); d == st.(luns := d.luns) && |d.luns| == |st.luns|
  {
  }

  /** Who has which GUID does not depend on attributes. */
  lemma SameGuids(st: State, bad: State, p: seq<Place>, n: nat, g: Guid)
    requires Framed(st, p) && Framed(bad, p) && n < |p| && |st.mem| == |bad.mem|
    requires forall i :: 0 <= i < |st.mem| ==> bad.mem[i].typeGuid == st.mem[i].typeGuid
    ensures NoOneHas(st, p, n, g) <==> NoOneHas(bad, p, n, g)
    ensures forall m: nat :: FirstWith(st, p, n, m, g) <==> FirstWith(bad, p, n, m, g)
  {
    hide TableFits, DiskOrder, LunOk;
  }
}
