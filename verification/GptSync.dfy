/**
 * When UpdatePartitionAttributes brings memory, shadow table and primary GPTs into step
 * (PartitionTableUpdate.c, lines 65-99 and 187-426).
 */
module GptSync {
  import opened Crc32Spec
  import opened GptFormat
  import opened SlotTypes
  import opened SlotSpec
  import opened GptUpdate
  import opened CopyUpdate

  // ---- the invariant ----

  /** How many of the first n places are records of the LUN. */
  function RecordsBefore(p: seq<Place>, n: nat, lun: nat): nat
    requires n <= |p|
  {
    if n == 0 then 0
    else RecordsBefore(p, n - 1, lun) + (if p[n - 1].handle.Record? && p[n - 1].lun == lun then 1 else 0)
  }

  /** The handles were enumerated LUN by LUN and, within a LUN, slot by slot from the first. */
  ghost predicate DiskOrder(p: seq<Place>) {
    && (forall i, j :: 0 <= i < j < |p| ==> p[i].lun <= p[j].lun)
    && (forall i :: 0 <= i < |p| && p[i].handle.Record? ==> p[i].handle.slot == RecordsBefore(p, i, p[i].lun))
  }

  /** A table entry fits its place: a named partition has a type GUID, everything else is blank. */
  ghost predicate Fits(e: Entry, p: Place) {
    && e.lun == p.lun
    && (p.handle.Record? ==> !Data1Zero(e.typeGuid))
    && (p.handle.NoRecord? ==> e == Blank(p.lun))
  }

  ghost predicate TableFits(t: seq<Entry>, p: seq<Place>)
    requires |t| == MAX_NUM_PARTITIONS && |p| <= MAX_NUM_PARTITIONS
  {
    && (forall i :: 0 <= i < |p| ==> Fits(t[i], p[i]))
    && (forall i :: |p| <= i < MAX_NUM_PARTITIONS ==> t[i] == Blank(0))
  }

  ghost predicate Framed(st: State, p: seq<Place>) {
    && StateOk(st) && |p| == st.count && DiskOrder(p) && PlacesOk(p, st.luns)
    && TableFits(st.mem, p) && TableFits(st.bak, p)
  }

  /** The LUN's primary table holds entry e at slot k. */
  ghost predicate Holds(l: Lun, k: nat, e: Entry)
    requires l.Lun? && LunOk(l) && k < MAX_NUM_PARTITIONS
  {
    Decode(l.bytes, SlotAt(l, false, k), e.lun) == e
  }

  /** The shadow table is the image of the primary tables. */
  ghost predicate Mirrored(st: State, p: seq<Place>)
    requires Framed(st, p)
  {
    forall i :: 0 <= i < |p| && p[i].handle.Record? ==> Holds(st.luns[p[i].lun], p[i].handle.slot, st.bak[i])
  }

  /** Memory and shadow differ at most in the fields that an update writes. */
  ghost predicate DiffersOnlyIn(mem: seq<Entry>, bak: seq<Entry>, ut: UpdateType) {
    && |mem| == |bak|
    && forall i :: 0 <= i < |mem| ==>
         && mem[i] == bak[i].(typeGuid := mem[i].typeGuid, attributes := mem[i].attributes)
         && (!ut.guid ==> mem[i].typeGuid == bak[i].typeGuid)
         && (!ut.attributes ==> mem[i].attributes == bak[i].attributes)
  }

  ghost predicate Ready(st: State, p: seq<Place>, ut: UpdateType) {
    Framed(st, p) && Mirrored(st, p) && DiffersOnlyIn(st.mem, st.bak, ut)
  }

  /** Memory, shadow and primary agree. */
  ghost predicate InStep(st: State, p: seq<Place>) {
    Framed(st, p) && Mirrored(st, p) && st.mem == st.bak
  }

  // ---- ranks are slot numbers ----

  lemma BlankHasNoGuid(lun: nat)
    ensures Data1Zero(Blank(lun).typeGuid)
  {
  }

  lemma SelectedIsRecord(t: seq<Entry>, p: seq<Place>, i: nat, lun: nat)
    requires |t| == MAX_NUM_PARTITIONS && |p| <= MAX_NUM_PARTITIONS && TableFits(t, p) && i < |p|
    ensures Selected(t[i], lun) <==> p[i].handle.Record? && p[i].lun == lun
  {
    hide Data1Zero;
    BlankHasNoGuid(p[i].lun);
    assert Fits(t[i], p[i]);
  }

  lemma {:induction false} RankIsSlot(t: seq<Entry>, p: seq<Place>, n: nat, lun: nat)
    requires |t| == MAX_NUM_PARTITIONS && |p| <= MAX_NUM_PARTITIONS && TableFits(t, p) && n <= |p|
    ensures Rank(t, n, lun) == RecordsBefore(p, n, lun)
  {
    hide TableFits, Selected;
    if n > 0 {
      RankIsSlot(t, p, n - 1, lun);
      SelectedIsRecord(t, p, n - 1, lun);
    }
  }

  lemma FramedOrdered(st: State, p: seq<Place>, lun: nat)
    requires Framed(st, p) && lun < |st.luns| && st.luns[lun].Lun?
    requires !st.device.UnknownDevice?
    ensures Ordered(st.mem, st.count, lun, st.device)
  {
    hide Data1Zero, DiskOrder;
    assert forall i, j :: 0 <= i < j < |p| ==> p[i].lun <= p[j].lun by {
      PlacesSorted(p);
    }
    forall i | 0 <= i < st.count && !Data1Zero(st.mem[i].typeGuid)
      ensures st.mem[i].lun == p[i].lun && p[i].handle.Record?
    {
      assert Fits(st.mem[i], p[i]);
      BlankHasNoGuid(p[i].lun);
    }
  }

  lemma PlacesSorted(p: seq<Place>)
    requires DiskOrder(p)
    ensures forall i, j :: 0 <= i < j < |p| ==> p[i].lun <= p[j].lun
  {
  }

  /** The rank of a partition is its slot on the disk. */
  lemma EntryRank(st: State, p: seq<Place>, i: nat)
    requires Framed(st, p) && i < |p| && p[i].handle.Record?
    ensures Rank(st.mem, i, p[i].lun) == p[i].handle.slot && st.mem[i].lun == p[i].lun
  {
    hide TableFits, Data1Zero;
    RankIsSlot(st.mem, p, i, p[i].lun);
    PlaceFits(st, p, i);
  }

  lemma PlaceFits(st: State, p: seq<Place>, i: nat)
    requires Framed(st, p) && i < |p|
    ensures Fits(st.mem[i], p[i]) && Fits(st.bak[i], p[i])
  {
    hide Fits, DiskOrder;
  }

  // ---- the two copies do not overlap ----

  ghost predicate SameShape(l: Lun, l': Lun) {
    l.Lun? && LunOk(l) && l'.Lun? && LunOk(l') && l'.blockSize == l.blockSize && |l'.bytes| == |l.bytes|
  }

  lemma FieldInTable(d: int)
    ensures InField(d) ==> 0 <= d < MAX_PARTITION_ENTRIES_SZ
    ensures InCrc(d) ==> 0 <= d < HEADER_SIZE
  {
  }

  /** A byte of one copy is in no field of the other. */
  lemma OffOtherCopy(l: Lun, backup: bool, x: int)
    requires l.Lun? && LunOk(l)
    requires HeaderAt(l, !backup) <= x < HeaderAt(l, !backup) + l.blockSize
      || TableAt(l, !backup) <= x < TableAt(l, !backup) + MAX_PARTITION_ENTRIES_SZ
    ensures !InField(x - TableAt(l, backup)) && !InCrc(x - HeaderAt(l, backup))
  {
    hide InField, InCrc;
    FieldInTable(x - TableAt(l, backup));
    FieldInTable(x - HeaderAt(l, backup));
  }

  lemma OtherCopyBytes(l: Lun, l': Lun, backup: bool, from: nat, to: nat)
    requires SameShape(l, l') && CopyFrame(l, l', backup)
    requires HeaderAt(l, !backup) <= from <= to <= HeaderAt(l, !backup) + l.blockSize
      || TableAt(l, !backup) <= from <= to <= TableAt(l, !backup) + MAX_PARTITION_ENTRIES_SZ
    ensures to <= |l.bytes| && forall x :: from <= x < to ==> l'.bytes[x] == l.bytes[x]
  {
    hide InField, InCrc;
    forall x | from <= x < to
      ensures l'.bytes[x] == l.bytes[x]
    {
      OffOtherCopy(l, backup, x);
    }
  }

  lemma OtherCopyKept(l: Lun, l': Lun, backup: bool)
    requires SameShape(l, l') && CopyFrame(l, l', backup)
    ensures Header(l', !backup) == Header(l, !backup) && Table(l', !backup) == Table(l, !backup)
    ensures forall x :: TableAt(l, !backup) <= x < TableAt(l, !backup) + MAX_PARTITION_ENTRIES_SZ ==> l'.bytes[x] == l.bytes[x]
  {
    hide CopyFrame;
    var h, t := HeaderAt(l, !backup), TableAt(l, !backup);
    OtherCopyBytes(l, l', backup, h, h + l.blockSize);
    OtherCopyBytes(l, l', backup, t, t + MAX_PARTITION_ENTRIES_SZ);
    SameSlice(l.bytes, l'.bytes, h, h + l.blockSize);
    SameSlice(l.bytes, l'.bytes, t, t + MAX_PARTITION_ENTRIES_SZ);
  }

  lemma SameSlice(b: seq<Byte>, c: seq<Byte>, from: nat, to: nat)
    requires from <= to <= |b| && |b| == |c|
    requires forall x :: from <= x < to ==> b[x] == c[x]
    ensures b[from..to] == c[from..to]
  {
  }

  // ---- decoding ----

  lemma {:induction false} SameName(b: seq<Byte>, c: seq<Byte>, at: nat, end: nat)
    requires at <= end <= |b| && |b| == |c|
    requires forall x :: at <= x < end ==> b[x] == c[x]
    ensures NameFrom(b, at, end) == NameFrom(c, at, end)
    decreases end - at
  {
    if at + 2 <= end {
      SameName(b, c, at + 2, end);
    }
  }

  /** Position x inside slot k is a field or it is not. */
  lemma SlotFields(k: nat, d: nat)
    requires k < MAX_NUM_PARTITIONS && d < PARTITION_ENTRY_SIZE
    ensures InField(PARTITION_ENTRY_SIZE * k + d) <==> d < 16 || 48 <= d < 56
  {
  }

  /** After a pass, an entry decodes to the old one with the two fields as now stored. */
  lemma DecodeAfter(l: Lun, l': Lun, backup: bool, k: nat, lun: nat)
    requires l.Lun? && LunOk(l) && l'.Lun? && LunOk(l') && l'.blockSize == l.blockSize && |l'.bytes| == |l.bytes|
    requires CopyFrame(l, l', backup) && k < MAX_NUM_PARTITIONS
    ensures var at := SlotAt(l, backup, k);
      Decode(l'.bytes, at, lun)
      == Decode(l.bytes, at, lun).(typeGuid := GuidAt(l'.bytes, at), attributes := AttributesAt(l'.bytes, at))
  {
    hide GetLe64, NameFrom;
    var at := SlotAt(l, backup, k);
    forall x | at + 16 <= x < at + 48 || at + 56 <= x < at + PARTITION_ENTRY_SIZE
      ensures l'.bytes[x] == l.bytes[x]
    {
      SlotFields(k, x - at);
      assert x - TableAt(l, backup) == PARTITION_ENTRY_SIZE * k + (x - at);
      TableOffCrc(l, backup, x);
    }
    SameName(l.bytes, l'.bytes, at + NAME_OFFSET, at + PARTITION_ENTRY_SIZE);
    assert l'.bytes[at + 16..at + 48] == l.bytes[at + 16..at + 48];
  }

  lemma TableOffCrc(l: Lun, backup: bool, x: nat)
    requires l.Lun? && LunOk(l) && TableAt(l, backup) <= x < TableAt(l, backup) + MAX_PARTITION_ENTRIES_SZ
    ensures !InCrc(x - HeaderAt(l, backup))
  {
  }

  // ---- one LUN ----

  /** Memory differs from what is stored at most in the fields written. */
  predicate EntryDiffersOnlyIn(e: Entry, b: Entry, ut: UpdateType) {
    && e == b.(typeGuid := e.typeGuid, attributes := e.attributes)
    && (!ut.guid ==> e.typeGuid == b.typeGuid)
    && (!ut.attributes ==> e.attributes == b.attributes)
  }

  lemma PrimarySlot(l: Lun, l': Lun, k: nat, e: Entry, b: Entry, ut: UpdateType)
    requires SameShape(l, l') && k < MAX_NUM_PARTITIONS && CopyFrame(l, l', false)
    requires Holds(l, k, b) && EntryDiffersOnlyIn(e, b, ut)
    requires var at := SlotAt(l, false, k);
      && GuidAt(l'.bytes, at) == (if ut.guid then e.typeGuid else GuidAt(l.bytes, at))
      && AttributesAt(l'.bytes, at) == (if ut.attributes then e.attributes else AttributesAt(l.bytes, at))
    ensures Holds(l', k, e)
  {
    hide GetLe64, NameFrom, CopyFrame;
    DecodeAfter(l, l', false, k, e.lun);
  }

  /** The shadow of an entry whose old value is on the disk becomes the entry. */
  lemma ShadowFollows(l: Lun, k: nat, e: Entry, b: Entry, ut: UpdateType)
    requires l.Lun? && LunOk(l) && k < MAX_NUM_PARTITIONS && Holds(l, k, b) && EntryDiffersOnlyIn(e, b, ut)
    ensures Shadowed(b, e, GuidAt(l.bytes, SlotAt(l, false, k)), AttributesAt(l.bytes, SlotAt(l, false, k)), ut) == e
    ensures Differs(e, GuidAt(l.bytes, SlotAt(l, false, k)), AttributesAt(l.bytes, SlotAt(l, false, k)), ut) <==> e != b
  {
    hide GetLe64, NameFrom;
  }

  /** A pass over the backup leaves what the primary holds. */
  lemma PrimaryKept(l: Lun, l': Lun, k: nat, e: Entry)
    requires SameShape(l, l') && k < MAX_NUM_PARTITIONS && CopyFrame(l, l', true) && Holds(l, k, e)
    ensures Holds(l', k, e)
  {
    hide GetLe64, NameFrom, CopyFrame, Decode;
    OtherCopyKept(l, l', true);
    SameDecode(l.bytes, l'.bytes, SlotAt(l, false, k), e.lun);
  }

  lemma SameDecode(b: seq<Byte>, c: seq<Byte>, at: nat, lun: nat)
    requires at + PARTITION_ENTRY_SIZE <= |b| && |b| == |c|
    requires forall x :: at <= x < at + PARTITION_ENTRY_SIZE ==> b[x] == c[x]
    ensures Decode(b, at, lun) == Decode(c, at, lun)
  {
    hide GetLe64, NameFrom;
    SameField64(b, c, at + ATTRIBUTE_FLAG_OFFSET);
    SameName(b, c, at + NAME_OFFSET, at + PARTITION_ENTRY_SIZE);
    assert b[at..at + 16] == c[at..at + 16] && b[at + 16..at + 48] == c[at + 16..at + 48];
  }

  /** The state after LUN k has been updated. */
  function AfterLun(st: State, k: nat, f: Flow): State
    requires k < |st.luns|
  {
    st.(bak := f.bak, luns := st.luns[k := f.lun])
  }

  /** The byte belongs to a type GUID, an attribute word or a checksum of one of the copies. */
  predicate InWritten(l: Lun, x: int)
    requires l.Lun? && LunOk(l)
  {
    || InField(x - TableAt(l, false)) || InCrc(x - HeaderAt(l, false))
    || InField(x - TableAt(l, true)) || InCrc(x - HeaderAt(l, true))
  }

  /** A copy is as before, or its checksums validate if its header declares 92 bytes. */
  ghost predicate CopyKept(l: Lun, l': Lun, backup: bool)
    requires SameShape(l, l')
  {
    || (Header(l', backup) == Header(l, backup) && Table(l', backup) == Table(l, backup))
    || (PlainHeader(Header(l, backup)) ==> CopySound(l', backup))
  }

  /** What an update leaves of a LUN: nothing changes but fields and checksums, and these validate. */
  ghost predicate LunUpdated(l: Lun, l': Lun) {
    && SameShape(l, l')
    && (forall x :: 0 <= x < |l.bytes| && !InWritten(l, x) ==> l'.bytes[x] == l.bytes[x])
    && CopyKept(l, l', false) && CopyKept(l, l', true)
  }

  // ---- headers that are refused ----

  /** The pass over the copy gives up: it has something to write, and the header's entry array is refused. */
  ghost predicate CopyStops(st: State, ut: UpdateType, k: nat, backup: bool)
    requires StateOk(st) && k < |st.luns| && st.luns[k].Lun?
  {
    && Dirty(LunJob(st.mem, st.count, k, ut, st.luns[k], backup))
    && !TableBytesOk(Header(st.luns[k], backup))
  }

  ghost predicate LunStops(st: State, ut: UpdateType, k: nat)
    requires StateOk(st) && k < |st.luns|
  {
    st.luns[k].Lun? && (CopyStops(st, ut, k, false) || CopyStops(st, ut, k, true))
  }

  /** The first LUN from k on with such a copy; the number of LUNs if there is none. */
  ghost function FirstStop(st: State, ut: UpdateType, k: nat): (s: nat)
    requires StateOk(st) && k <= |st.luns|
    ensures k <= s <= |st.luns|
    decreases |st.luns| - k
  {
    if k == |st.luns| || LunStops(st, ut, k) then k else FirstStop(st, ut, k + 1)
  }

  lemma {:induction false} FirstStopIs(st: State, ut: UpdateType, k: nat)
    requires StateOk(st) && k <= |st.luns|
    ensures var s := FirstStop(st, ut, k);
      (s < |st.luns| ==> LunStops(st, ut, s)) && forall l :: k <= l < s ==> !LunStops(st, ut, l)
    decreases |st.luns| - k
  {
    hide LunStops, LunOk;
    if k < |st.luns| && !LunStops(st, ut, k) {
      FirstStopIs(st, ut, k + 1);
    }
  }

  /** Whether a LUN stops the update depends on the table in memory and the LUN alone. */
  lemma {:induction false} SameStops(st: State, st': State, ut: UpdateType, k: nat)
    requires StateOk(st) && StateOk(st') && st'.mem == st.mem && st'.count == st.count && |st'.luns| == |st.luns|
    requires k <= |st.luns| && forall l :: k <= l < |st.luns| ==> st'.luns[l] == st.luns[l]
    ensures FirstStop(st', ut, k) == FirstStop(st, ut, k)
    ensures forall l :: k <= l < |st.luns| ==> LunStops(st', ut, l) == LunStops(st, ut, l)
    decreases |st.luns| - k
  {
    hide Dirty, LunJob, TableBytesOk, Header, LunOk;
    if k < |st.luns| {
      SameStops(st, st', ut, k + 1);
    }
  }

  /** Both copies hold memory's fields already. */
  ghost predicate LunClean(st: State, ut: UpdateType, k: nat)
    requires StateOk(st) && k < |st.luns|
  {
    st.luns[k].Lun? ==>
      && !Dirty(LunJob(st.mem, st.count, k, ut, st.luns[k], false))
      && !Dirty(LunJob(st.mem, st.count, k, ut, st.luns[k], true))
  }

  /** The intermediate flow, after the primary pass. */
  function PrimaryPass(st: State, ut: UpdateType, k: nat): (f: Flow)
    requires StateOk(st) && k < |st.luns| && st.luns[k].Lun?
    ensures |f.bak| == MAX_NUM_PARTITIONS
  {
    UpdateCopy(st.mem, st.bak, st.count, k, st.device, ut, st.luns[k], false)
  }

  /** The record of place i lies on LUN k. */
  predicate RecordOf(p: seq<Place>, i: nat, k: nat) {
    i < |p| && p[i].handle.Record? && p[i].lun == k
  }

  lemma TakerIsRecord(st: State, p: seq<Place>, ut: UpdateType, k: nat, l: Lun, backup: bool, i: nat)
    requires Framed(st, p) && l.Lun? && LunOk(l) && i < st.count && Takes(LunJob(st.mem, st.count, k, ut, l, backup), i)
    ensures RecordOf(p, i, k)
  {
    hide TableFits, Data1Zero, DiskOrder;
    SelectedIsRecord(st.mem, p, i, k);
  }

  /** Where every GUID passes, each record takes the slot it has on the disk. */
  lemma RecordTakes(st: State, p: seq<Place>, ut: UpdateType, k: nat, l: Lun, backup: bool, i: nat)
    requires Framed(st, p) && l.Lun? && LunOk(l) && RecordOf(p, i, k)
    requires Aligned(LunJob(st.mem, st.count, k, ut, l, backup), st.count)
    ensures var j := LunJob(st.mem, st.count, k, ut, l, backup);
      Takes(j, i) && SlotFor(j, i) == SlotAt(l, backup, p[i].handle.slot)
  {
    hide TableFits, Data1Zero, DiskOrder, Takes, Aligned, Selected;
    SelectedIsRecord(st.mem, p, i, k);
    EntryRank(st, p, i);
    AlignedTakes(LunJob(st.mem, st.count, k, ut, l, backup), st.count);
  }

  lemma PrimaryAligned(st: State, p: seq<Place>, ut: UpdateType, k: nat)
    requires Ready(st, p, ut) && k < |st.luns| && st.luns[k].Lun?
    ensures Aligned(LunJob(st.mem, st.count, k, ut, st.luns[k], false), st.count)
  {
    var j := LunJob(st.mem, st.count, k, ut, st.luns[k], false);
    hide PassesAtRank, LunJob, TableFits, Mirrored, DiffersOnlyIn, DiskOrder, PlacesOk, LunOk;
    forall i | 0 <= i < st.count
      ensures PassesAtRank(j, i)
    {
      PrimaryPasses(st, p, ut, k, i);
    }
  }

  lemma PrimaryPasses(st: State, p: seq<Place>, ut: UpdateType, k: nat, i: nat)
    requires Ready(st, p, ut) && k < |st.luns| && st.luns[k].Lun? && i < st.count
    ensures PassesAtRank(LunJob(st.mem, st.count, k, ut, st.luns[k], false), i)
  {
    hide DiskOrder, TableFits, Selected, Passes, GuidAt, TableAt, LunOk, Holds;
    if Selected(st.mem[i], k) {
      SelectedIsRecord(st.mem, p, i, k);
      EntryRank(st, p, i);
      HeldPasses(st.luns[k], p[i].handle.slot, st.mem[i], st.bak[i], ut);
    }
  }

  lemma HeldPasses(l: Lun, k: nat, e: Entry, b: Entry, ut: UpdateType)
    requires l.Lun? && LunOk(l) && k < MAX_NUM_PARTITIONS && Holds(l, k, b) && EntryDiffersOnlyIn(e, b, ut)
    ensures Passes(ut, GuidAt(l.bytes, TableAt(l, false) + PARTITION_ENTRY_SIZE * k), e.typeGuid)
  {
    hide NameFrom, GetLe64, Data1Zero;
  }

  /**
   * The primary pass brings the shadows of the LUN's entries up to date, and the entries
   * themselves unless it gives up.
   */
  lemma PrimaryDone(st: State, p: seq<Place>, ut: UpdateType, k: nat)
    requires Ready(st, p, ut) && k < |st.luns| && st.luns[k].Lun? && !st.device.UnknownDevice?
    ensures StateOk(st)
    ensures CopyStops(st, ut, k, false) ==> PrimaryPass(st, ut, k).exit && PrimaryPass(st, ut, k).lun == st.luns[k]
    ensures !CopyStops(st, ut, k, false) ==>
      && CopyDone(st.mem, st.bak, st.count, k, ut, st.luns[k], false, PrimaryPass(st, ut, k))
      && forall i: nat :: RecordOf(p, i, k) ==> Holds(PrimaryPass(st, ut, k).lun, p[i].handle.slot, st.mem[i])
    ensures forall i :: 0 <= i < MAX_NUM_PARTITIONS ==>
      PrimaryPass(st, ut, k).bak[i] == if RecordOf(p, i, k) then st.mem[i] else st.bak[i]
    ensures !Dirty(LunJob(st.mem, st.count, k, ut, st.luns[k], false)) ==> PrimaryPass(st, ut, k).lun == st.luns[k]
  {
    hide TableBytesOk, Ordered, UpdateCopy, TableFits, CopyDone, CopyStopped, Aligned, Holds, Mirrored, DiffersOnlyIn, DiskOrder, Dirty, Header;
    var l := st.luns[k];
    FramedOrdered(st, p, k);
    PrimaryAligned(st, p, ut, k);
    CopyCorrect(st.mem, st.bak, st.count, k, st.device, ut, l, false);
    StoppedWhole(st.mem, st.bak, st.count, k, ut, l, PrimaryPass(st, ut, k));
    hide RecordOf, LunJob;
    forall i | 0 <= i < MAX_NUM_PARTITIONS
      ensures PrimaryPass(st, ut, k).bak[i] == if RecordOf(p, i, k) then st.mem[i] else st.bak[i]
      ensures RecordOf(p, i, k) && !CopyStops(st, ut, k, false) ==> Holds(PrimaryPass(st, ut, k).lun, p[i].handle.slot, st.mem[i])
    {
      if !CopyStops(st, ut, k, false) {
        PrimaryDoneAt(st, p, ut, k, i);
        CopyDoneShadow(st.mem, st.bak, st.count, k, ut, l, false, PrimaryPass(st, ut, k), i);
      } else {
        StoppedAt(st.mem, st.bak, st.count, k, ut, l, false, PrimaryPass(st, ut, k), i);
      }
      PrimaryShadow(st, p, ut, k, PrimaryPass(st, ut, k).bak, i);
    }
    RecordsInTable(st, p);
  }

  lemma StoppedWhole(mem: seq<Entry>, bak: seq<Entry>, count: nat, lun: nat, ut: UpdateType, l: Lun, f: Flow)
    requires count <= |mem| == |bak| == |f.bak| == MAX_NUM_PARTITIONS && l.Lun? && LunOk(l)
    ensures CopyStopped(mem, bak, count, lun, ut, l, false, f) ==> f.exit && f.lun == l
  {
    hide ShadowDone;
  }

  lemma StoppedAt(mem: seq<Entry>, bak: seq<Entry>, count: nat, lun: nat, ut: UpdateType, l: Lun, backup: bool, f: Flow, i: nat)
    requires count <= |mem| == |bak| == |f.bak| == MAX_NUM_PARTITIONS && l.Lun? && LunOk(l) && i < MAX_NUM_PARTITIONS
    requires CopyStopped(mem, bak, count, lun, ut, l, backup, f)
    ensures ShadowDone(LunJob(mem, count, lun, ut, l, backup), bak, f.bak, i)
  {
    hide ShadowDone;
  }

  lemma CopyDoneShadow(mem: seq<Entry>, bak: seq<Entry>, count: nat, lun: nat, ut: UpdateType, l: Lun, backup: bool, f: Flow, i: nat)
    requires count <= |mem| == |bak| == |f.bak| == MAX_NUM_PARTITIONS && l.Lun? && LunOk(l) && i < MAX_NUM_PARTITIONS
    requires f.lun.Lun? && LunOk(f.lun) && f.lun.blockSize == l.blockSize && |f.lun.bytes| == |l.bytes|
    requires CopyDone(mem, bak, count, lun, ut, l, backup, f)
    ensures ShadowDone(LunJob(mem, count, lun, ut, l, backup), bak, f.bak, i)
  {
    hide GuidAt, AttributesAt, CopyFrame, CopySound, Shadowed, Takes, SlotFor, RestKept;
    assert SlotDone(LunJob(mem, count, lun, ut, l, backup), bak, f.lun.bytes, f.bak, i);
  }

  lemma PrimaryShadow(st: State, p: seq<Place>, ut: UpdateType, k: nat, bak': seq<Entry>, i: nat)
    requires Ready(st, p, ut) && k < |st.luns| && st.luns[k].Lun? && i < MAX_NUM_PARTITIONS == |bak'|
    requires Aligned(LunJob(st.mem, st.count, k, ut, st.luns[k], false), st.count)
    requires ShadowDone(LunJob(st.mem, st.count, k, ut, st.luns[k], false), st.bak, bak', i)
    ensures bak'[i] == if RecordOf(p, i, k) then st.mem[i] else st.bak[i]
  {
    hide TableFits, Aligned, Holds, DiskOrder, Takes, SlotFor, GuidAt, AttributesAt, Shadowed, SlotAt, LunOk;
    var l := st.luns[k];
    if RecordOf(p, i, k) {
      RecordTakes(st, p, ut, k, l, false, i);
      ShadowFollows(l, p[i].handle.slot, st.mem[i], st.bak[i], ut);
    } else if i < st.count && Takes(LunJob(st.mem, st.count, k, ut, l, false), i) {
      TakerIsRecord(st, p, ut, k, l, false, i);
    }
  }

  lemma RecordsInTable(st: State, p: seq<Place>)
    requires Framed(st, p)
    ensures forall i: nat, k: nat :: RecordOf(p, i, k) ==> i < MAX_NUM_PARTITIONS
  {
  }

  lemma PrimaryDoneAt(st: State, p: seq<Place>, ut: UpdateType, k: nat, i: nat)
    requires Ready(st, p, ut) && k < |st.luns| && st.luns[k].Lun? && i < MAX_NUM_PARTITIONS
    requires Aligned(LunJob(st.mem, st.count, k, ut, st.luns[k], false), st.count)
    requires CopyDone(st.mem, st.bak, st.count, k, ut, st.luns[k], false, PrimaryPass(st, ut, k))
    ensures RecordOf(p, i, k) ==> Holds(PrimaryPass(st, ut, k).lun, p[i].handle.slot, st.mem[i])
  {
    hide UpdateCopy, TableFits, Aligned, Holds, DiskOrder, Takes, SlotFor, GuidAt, AttributesAt, Shadowed, CopyDone, LunJob, SlotAt, LunOk;
    var l, f := st.luns[k], PrimaryPass(st, ut, k);
    CopyDoneAt(st.mem, st.bak, st.count, k, ut, l, false, f, i);
    CopyDoneWhole(st.mem, st.bak, st.count, k, ut, l, false, f);
    if RecordOf(p, i, k) {
      RecordTakes(st, p, ut, k, l, false, i);
      PrimarySlot(l, f.lun, p[i].handle.slot, st.mem[i], st.bak[i], ut);
    }
  }

  lemma CopyDoneAt(mem: seq<Entry>, bak: seq<Entry>, count: nat, lun: nat, ut: UpdateType, l: Lun, backup: bool, f: Flow, i: nat)
    requires count <= |mem| == |bak| == |f.bak| == MAX_NUM_PARTITIONS && l.Lun? && LunOk(l) && i < MAX_NUM_PARTITIONS
    requires f.lun.Lun? && LunOk(f.lun) && f.lun.blockSize == l.blockSize && |f.lun.bytes| == |l.bytes|
    requires CopyDone(mem, bak, count, lun, ut, l, backup, f)
    ensures var j := LunJob(mem, count, lun, ut, l, backup);
      if i < count && Takes(j, i) then
        var at := SlotFor(j, i);
        && GuidAt(f.lun.bytes, at) == (if ut.guid then mem[i].typeGuid else GuidAt(l.bytes, at))
        && AttributesAt(f.lun.bytes, at) == (if ut.attributes then mem[i].attributes else AttributesAt(l.bytes, at))
        && f.bak[i] == Shadowed(bak[i], mem[i], GuidAt(l.bytes, at), AttributesAt(l.bytes, at), ut)
      else f.bak[i] == bak[i]
  {
    hide GuidAt, AttributesAt, CopyFrame, CopySound, Shadowed, Takes, SlotFor, RestKept;
    assert SlotDone(LunJob(mem, count, lun, ut, l, backup), bak, f.lun.bytes, f.bak, i);
  }

  lemma CopyDoneWhole(mem: seq<Entry>, bak: seq<Entry>, count: nat, lun: nat, ut: UpdateType, l: Lun, backup: bool, f: Flow)
    requires count <= |mem| == |bak| == |f.bak| == MAX_NUM_PARTITIONS && l.Lun? && LunOk(l)
    requires f.lun.Lun? && LunOk(f.lun) && f.lun.blockSize == l.blockSize && |f.lun.bytes| == |l.bytes|
    requires CopyDone(mem, bak, count, lun, ut, l, backup, f)
    ensures !f.exit && CopyFrame(l, f.lun, backup) && SameShape(l, f.lun)
    ensures f.lun == l || (PlainHeader(Header(l, backup)) ==> CopySound(f.lun, backup))
  {
    hide CopyFrame, CopySound, SlotDone, RestKept, LunOk, PlainHeader, Header;
  }

  function BothPasses(st: State, ut: UpdateType, k: nat): (f: Flow)
    requires StateOk(st) && k < |st.luns| && st.luns[k].Lun?
    ensures |f.bak| == MAX_NUM_PARTITIONS
  {
    UpdateLun(st.mem, st.bak, st.count, k, st.device, ut, st.luns[k])
  }

  /** After the primary pass the backup pass finds the same table and header as before it. */
  lemma BackupFound(st: State, p: seq<Place>, ut: UpdateType, k: nat)
    requires Ready(st, p, ut) && k < |st.luns| && st.luns[k].Lun? && !st.device.UnknownDevice?
    requires StateOk(st) && !CopyStops(st, ut, k, false)
    ensures var l, f := st.luns[k], PrimaryPass(st, ut, k);
      && !f.exit && SameShape(l, f.lun) && CopyFrame(l, f.lun, false)
      && Header(f.lun, true) == Header(l, true) && Table(f.lun, true) == Table(l, true)
      && (Dirty(LunJob(st.mem, st.count, k, ut, f.lun, true)) <==> Dirty(LunJob(st.mem, st.count, k, ut, l, true)))
  {
    hide Ready, UpdateCopy, CopyDone, CopyFrame, CopySound, Dirty, CopyStops;
    PrimaryDone(st, p, ut, k);
    var l, f := st.luns[k], PrimaryPass(st, ut, k);
    CopyDoneWhole(st.mem, st.bak, st.count, k, ut, l, false, f);
    OtherCopyKept(l, f.lun, false);
    SameDirty(LunJob(st.mem, st.count, k, ut, l, true), LunJob(st.mem, st.count, k, ut, f.lun, true));
  }

  /** The backup pass keeps what the primary pass left, whatever the backup holds, and writes unless it gives up. */
  lemma BackupDone(st: State, p: seq<Place>, ut: UpdateType, k: nat)
    requires Ready(st, p, ut) && k < |st.luns| && st.luns[k].Lun? && !st.device.UnknownDevice?
    requires StateOk(st) && !CopyStops(st, ut, k, false)
    ensures var f, g := PrimaryPass(st, ut, k), BothPasses(st, ut, k);
      && SameShape(f.lun, g.lun) && CopyFrame(f.lun, g.lun, true) && (g.exit <==> CopyStops(st, ut, k, true))
      && (if CopyStops(st, ut, k, true) then g.lun == f.lun
          else CopyDone(st.mem, f.bak, st.count, k, ut, f.lun, true, g))
      && (g.lun == f.lun || (PlainHeader(Header(f.lun, true)) ==> CopySound(g.lun, true)))
      && (!Dirty(LunJob(st.mem, st.count, k, ut, st.luns[k], true)) ==> g.lun == f.lun)
    ensures forall i :: 0 <= i < MAX_NUM_PARTITIONS ==>
      BothPasses(st, ut, k).bak[i] == if RecordOf(p, i, k) then st.mem[i] else st.bak[i]
    ensures forall i: nat :: RecordOf(p, i, k) ==> Holds(BothPasses(st, ut, k).lun, p[i].handle.slot, st.mem[i])
  {
    hide TableBytesOk, Ordered, UpdateCopy, TableFits, CopyDone, Holds, Mirrored, DiffersOnlyIn, DiskOrder, CopyFrame, CopySound, LunOk, Header, Dirty, PlainHeader;
    PrimaryDone(st, p, ut, k);
    BackupFound(st, p, ut, k);
    var f, g := PrimaryPass(st, ut, k), BothPasses(st, ut, k);
    FramedOrdered(st, p, k);
    CopyCorrect(st.mem, f.bak, st.count, k, st.device, ut, f.lun, true);
    assert g == UpdateCopy(st.mem, f.bak, st.count, k, st.device, ut, f.lun, true);
    if CopyStops(st, ut, k, true) {
      FrameRefl(f.lun, true);
    } else {
      CopyDoneWhole(st.mem, f.bak, st.count, k, ut, f.lun, true, g);
    }
    hide UpdateLun, PrimaryPass, BothPasses, LunJob;
    forall i | 0 <= i < MAX_NUM_PARTITIONS
      ensures g.bak[i] == f.bak[i]
      ensures RecordOf(p, i, k) ==> Holds(g.lun, p[i].handle.slot, st.mem[i])
    {
      if CopyStops(st, ut, k, true) {
        StoppedAt(st.mem, f.bak, st.count, k, ut, f.lun, true, g, i);
      } else {
        CopyDoneShadow(st.mem, f.bak, st.count, k, ut, f.lun, true, g, i);
      }
      ShadowStays(st, p, ut, k, f, g, i);
      if RecordOf(p, i, k) {
        PrimaryKept(f.lun, g.lun, p[i].handle.slot, st.mem[i]);
      }
    }
    RecordsInTable(st, p);
  }

  lemma FrameRefl(l: Lun, backup: bool)
    requires l.Lun? && LunOk(l)
    ensures SameShape(l, l) && CopyFrame(l, l, backup)
  {
  }

  lemma ShadowStays(st: State, p: seq<Place>, ut: UpdateType, k: nat, f: Flow, g: Flow, i: nat)
    requires Framed(st, p) && i < MAX_NUM_PARTITIONS
    requires |f.bak| == |g.bak| == MAX_NUM_PARTITIONS && f.lun.Lun? && LunOk(f.lun)
    requires ShadowDone(LunJob(st.mem, st.count, k, ut, f.lun, true), f.bak, g.bak, i)
    requires RecordOf(p, i, k) ==> f.bak[i] == st.mem[i]
    ensures g.bak[i] == f.bak[i]
  {
    hide TableFits, DiskOrder, Takes, SlotFor, GuidAt, AttributesAt;
    if i < st.count && Takes(LunJob(st.mem, st.count, k, ut, f.lun, true), i) {
      TakerIsRecord(st, p, ut, k, f.lun, true, i);
    }
  }

  /** What both passes leave of the LUN's bytes. */
  lemma PassesUpdate(l: Lun, m: Lun, n: Lun)
    requires SameShape(l, m) && SameShape(m, n) && CopyFrame(l, m, false) && CopyFrame(m, n, true)
    requires m == l || (PlainHeader(Header(l, false)) ==> CopySound(m, false))
    requires n == m || (PlainHeader(Header(m, true)) ==> CopySound(n, true))
    ensures LunUpdated(l, n)
  {
    hide Sound, InField, InCrc, Header, Table, CopyFrame, PlainHeader;
    OtherCopyKept(l, m, false);
    OtherCopyKept(m, n, true);
    PassesFrame(l, m, n);
  }

  lemma PassesFrame(l: Lun, m: Lun, n: Lun)
    requires SameShape(l, m) && SameShape(m, n) && CopyFrame(l, m, false) && CopyFrame(m, n, true)
    ensures forall x :: 0 <= x < |l.bytes| && !InWritten(l, x) ==> n.bytes[x] == l.bytes[x]
  {
    hide InField, InCrc;
  }

  lemma UpdatedRefl(l: Lun)
    requires l.Lun? && LunOk(l)
    ensures LunUpdated(l, l)
  {
    hide PlainHeader, CopySound, InWritten;
  }

  /**
   * Updating one LUN brings the shadows of its entries up to date, and the entries
   * themselves unless the primary pass gives up; it goes on to the next LUN unless one of
   * the passes gives up.
   */
  lemma LunCorrect(st: State, p: seq<Place>, ut: UpdateType, k: nat)
    requires Ready(st, p, ut) && k < |st.luns| && st.luns[k].Lun? && !st.device.UnknownDevice?
    ensures StateOk(st)
    ensures var f := BothPasses(st, ut, k);
      && (f.exit <==> LunStops(st, ut, k)) && LunUpdated(st.luns[k], f.lun)
      && (if CopyStops(st, ut, k, false) then f.lun == st.luns[k] else Ready(AfterLun(st, k, f), p, ut))
      && (LunClean(st, ut, k) ==> f.lun == st.luns[k])
      && forall i :: 0 <= i < MAX_NUM_PARTITIONS ==> f.bak[i] == if RecordOf(p, i, k) then st.mem[i] else st.bak[i]
  {
    hide TableBytesOk, CopyFrame, CopySound, Holds, UpdateCopy, DiskOrder, TableFits, CopyDone, LunUpdated, Mirrored, DiffersOnlyIn, Dirty, PlainHeader, Header;
    PrimaryDone(st, p, ut, k);
    var f, g := PrimaryPass(st, ut, k), BothPasses(st, ut, k);
    if CopyStops(st, ut, k, false) {
      assert g == f;
      UpdatedRefl(st.luns[k]);
    } else {
      CopyDoneWhole(st.mem, st.bak, st.count, k, ut, st.luns[k], false, f);
      BackupDone(st, p, ut, k);
      PassesUpdate(st.luns[k], f.lun, g.lun);
      LunReady(st, p, ut, k, g);
    }
  }

  lemma LunReady(st: State, p: seq<Place>, ut: UpdateType, k: nat, g: Flow)
    requires Ready(st, p, ut) && k < |st.luns| && st.luns[k].Lun?
    requires SameShape(st.luns[k], g.lun) && |g.bak| == MAX_NUM_PARTITIONS
    requires forall i: nat :: RecordOf(p, i, k) ==> Holds(g.lun, p[i].handle.slot, st.mem[i])
    requires forall i :: 0 <= i < MAX_NUM_PARTITIONS ==> g.bak[i] == if RecordOf(p, i, k) then st.mem[i] else st.bak[i]
    ensures Ready(AfterLun(st, k, g), p, ut)
  {
    hide DiskOrder, Data1Zero, Holds, LunOk;
    var st' := AfterLun(st, k, g);
    assert TableFits(st'.bak, p);
    assert PlacesOk(p, st'.luns);
    assert Framed(st', p);
    assert DiffersOnlyIn(st'.mem, st'.bak, ut);
  }

  // ---- all LUNs ----

  /** Every LUN is unchanged or updated as one LUN is. */
  ghost predicate AllUpdated(st: State, st': State) {
    && |st.luns| == |st'.luns|
    && forall k :: 0 <= k < |st.luns| ==>
         st'.luns[k] == st.luns[k] || (st.luns[k].Lun? && LunUpdated(st.luns[k], st'.luns[k]))
  }

  /** The record of place i lies on one of the LUNs from k to s. */
  predicate RecordBetween(p: seq<Place>, i: nat, k: nat, s: nat) {
    i < |p| && p[i].handle.Record? && k <= p[i].lun <= s
  }

  /** The update ends on a primary GPT that it cannot write. */
  ghost predicate PrimaryRefused(st: State, ut: UpdateType, s: nat)
    requires StateOk(st) && s <= |st.luns|
  {
    s < |st.luns| && st.luns[s].Lun? && CopyStops(st, ut, s, false)
  }

  /**
   * What the loop over LUNs k and up leaves when it ends on LUN s: the shadows of the
   * entries up to there are up to date, and the entries themselves, unless it was the last
   * LUN's primary pass that gave up; LUNs that needed no rewriting are as before.
   */
  ghost predicate LunsDone(st: State, p: seq<Place>, ut: UpdateType, k: nat, s: nat, r: State)
    requires StateOk(st) && s <= |st.luns|
  {
    && AllUpdated(st, r) && |r.bak| == |st.mem| == |st.bak| == MAX_NUM_PARTITIONS
    && (PrimaryRefused(st, ut, s) || Ready(r, p, ut))
    && (forall l :: 0 <= l < |st.luns| && (l < k || l > s || LunClean(st, ut, l)) ==> r.luns[l] == st.luns[l])
    && (PrimaryRefused(st, ut, s) ==> r.luns[s] == st.luns[s])
    && forall i :: 0 <= i < MAX_NUM_PARTITIONS ==>
         r.bak[i] == if RecordBetween(p, i, k, s) then st.mem[i] else st.bak[i]
  }

  /** One turn of the loop, and of the search for the LUN on which it ends. */
  lemma LoopStep(st: State, ut: UpdateType, k: nat)
    requires StateOk(st) && k <= |st.luns|
    ensures k == |st.luns| ==> UpdateLuns(st, ut, k) == st && FirstStop(st, ut, k) == k
    ensures k < |st.luns| && st.luns[k].Unconfigured? ==>
      UpdateLuns(st, ut, k) == UpdateLuns(st, ut, k + 1) && FirstStop(st, ut, k) == FirstStop(st, ut, k + 1)
    ensures k < |st.luns| && st.luns[k].Lun? ==>
      var f := BothPasses(st, ut, k);
      && StateOk(AfterLun(st, k, f)) && |AfterLun(st, k, f).luns| == |st.luns|
      && UpdateLuns(st, ut, k) == (if f.exit then AfterLun(st, k, f) else UpdateLuns(AfterLun(st, k, f), ut, k + 1))
      && FirstStop(st, ut, k) == if LunStops(st, ut, k) then k else FirstStop(st, ut, k + 1)
  {
    hide UpdateLun, CopyStops, LunOk;
  }

  /** The loop goes as far as the first LUN on which a pass gives up. */
  lemma {:induction false} LunsCorrect(st: State, p: seq<Place>, ut: UpdateType, k: nat)
    requires Ready(st, p, ut) && k <= |st.luns| && !st.device.UnknownDevice?
    ensures StateOk(st) && LunsDone(st, p, ut, k, FirstStop(st, ut, k), UpdateLuns(st, ut, k))
    decreases |st.luns| - k
  {
    hide Ready, LunsDone, BothPasses, UpdateLuns, FirstStop, LunStops, LunOk, StateOk, AfterLun;
    ReadyOk(st, p, ut);
    LoopStep(st, ut, k);
    if k == |st.luns| {
      NothingDone(st, p, ut);
    } else if st.luns[k].Unconfigured? {
      LunsCorrect(st, p, ut, k + 1);
      LunPassed(st, p, ut, k, FirstStop(st, ut, k + 1), UpdateLuns(st, ut, k + 1));
    } else {
      LunCorrect(st, p, ut, k);
      var st' := AfterLun(st, k, BothPasses(st, ut, k));
      if LunStops(st, ut, k) {
        LoopEnds(st, p, ut, k, BothPasses(st, ut, k));
      } else {
        NoRefusal(st, ut, k);
        AfterIs(st, k, BothPasses(st, ut, k));
        SameStops(st, st', ut, k + 1);
        LunsCorrect(st', p, ut, k + 1);
        LunAdded(st, p, ut, k, BothPasses(st, ut, k), FirstStop(st, ut, k + 1), UpdateLuns(st', ut, k + 1));
      }
    }
  }

  lemma AfterIs(st: State, k: nat, f: Flow)
    requires k < |st.luns|
    ensures var st' := AfterLun(st, k, f);
      && st' == st.(bak := f.bak, luns := st'.luns) && |st'.luns| == |st.luns| && st'.luns[k] == f.lun
      && forall l :: 0 <= l < |st.luns| && l != k ==> st'.luns[l] == st.luns[l]
  {
  }

  lemma NoRefusal(st: State, ut: UpdateType, k: nat)
    requires StateOk(st) && k < |st.luns| && st.luns[k].Lun? && !LunStops(st, ut, k)
    ensures !CopyStops(st, ut, k, false)
  {
  }

  lemma NothingDone(st: State, p: seq<Place>, ut: UpdateType)
    requires Ready(st, p, ut) && StateOk(st)
    ensures LunsDone(st, p, ut, |st.luns|, |st.luns|, st)
  {
    hide Mirrored, DiffersOnlyIn, LunOk, LunClean, LunUpdated, Framed;
    ReadyOk(st, p, ut);
    RecordsOnLuns(st, p);
  }

  /** A LUN that is not configured is passed over. */
  lemma LunPassed(st: State, p: seq<Place>, ut: UpdateType, k: nat, s: nat, r: State)
    requires Ready(st, p, ut) && StateOk(st) && k < s <= |st.luns| && st.luns[k].Unconfigured?
    requires LunsDone(st, p, ut, k + 1, s, r)
    ensures LunsDone(st, p, ut, k, s, r)
  {
    hide Ready, LunOk, LunUpdated, RecordBetween, CopyStops;
    ReadyOk(st, p, ut);
    forall i | 0 <= i < MAX_NUM_PARTITIONS
      ensures r.bak[i] == if RecordBetween(p, i, k, s) then st.mem[i] else st.bak[i]
    {
      NoRecordOn(st, p, k, i, s);
    }
  }

  lemma LoopEnds(st: State, p: seq<Place>, ut: UpdateType, k: nat, f: Flow)
    requires Ready(st, p, ut) && StateOk(st) && k < |st.luns| && st.luns[k].Lun? && LunUpdated(st.luns[k], f.lun)
    requires if CopyStops(st, ut, k, false) then f.lun == st.luns[k] else Ready(AfterLun(st, k, f), p, ut)
    requires LunClean(st, ut, k) ==> f.lun == st.luns[k]
    requires |f.bak| == MAX_NUM_PARTITIONS
    requires forall i :: 0 <= i < MAX_NUM_PARTITIONS ==> f.bak[i] == if RecordOf(p, i, k) then st.mem[i] else st.bak[i]
    ensures LunsDone(st, p, ut, k, k, AfterLun(st, k, f))
  {
    hide Ready, LunOk, LunClean, LunUpdated, CopyStops;
  }

  lemma LunAdded(st: State, p: seq<Place>, ut: UpdateType, k: nat, f: Flow, s: nat, r: State)
    requires Ready(st, p, ut) && StateOk(st) && k < s <= |st.luns| && st.luns[k].Lun? && LunUpdated(st.luns[k], f.lun)
    requires LunClean(st, ut, k) ==> f.lun == st.luns[k]
    requires |f.bak| == MAX_NUM_PARTITIONS && StateOk(AfterLun(st, k, f))
    requires forall i :: 0 <= i < MAX_NUM_PARTITIONS ==> f.bak[i] == if RecordOf(p, i, k) then st.mem[i] else st.bak[i]
    requires LunsDone(AfterLun(st, k, f), p, ut, k + 1, s, r)
    ensures LunsDone(st, p, ut, k, s, r)
  {
    hide Ready, LunOk, LunClean, LunUpdated, CopyStops;
    var st' := AfterLun(st, k, f);
    SameRefused(st, st', ut, s);
    SameClean(st, st', ut, k + 1);
  }

  lemma ReadyOk(st: State, p: seq<Place>, ut: UpdateType)
    requires Ready(st, p, ut)
    ensures StateOk(st) && |p| == st.count && Framed(st, p)
  {
  }

  lemma RecordsOnLuns(st: State, p: seq<Place>)
    requires Framed(st, p)
    ensures forall i: nat, s: nat :: !RecordBetween(p, i, |st.luns|, s)
  {
    hide DiskOrder, TableFits;
  }

  lemma NoRecordOn(st: State, p: seq<Place>, k: nat, i: nat, s: nat)
    requires Framed(st, p) && k < |st.luns| && st.luns[k].Unconfigured?
    ensures RecordBetween(p, i, k, s) == RecordBetween(p, i, k + 1, s)
  {
    hide DiskOrder, TableFits;
  }

  lemma SameRefused(st: State, st': State, ut: UpdateType, s: nat)
    requires StateOk(st) && StateOk(st') && st'.mem == st.mem && st'.count == st.count && |st'.luns| == |st.luns|
    requires s <= |st.luns| && (s < |st.luns| ==> st'.luns[s] == st.luns[s])
    ensures PrimaryRefused(st', ut, s) == PrimaryRefused(st, ut, s)
  {
    hide Dirty, LunJob, TableBytesOk, Header, LunOk;
  }

  lemma SameClean(st: State, st': State, ut: UpdateType, k: nat)
    requires StateOk(st) && StateOk(st') && st'.mem == st.mem && st'.count == st.count && |st'.luns| == |st.luns|
    requires forall l :: k <= l < |st.luns| ==> st'.luns[l] == st.luns[l]
    ensures forall l :: k <= l < |st.luns| ==> LunClean(st', ut, l) == LunClean(st, ut, l)
  {
    hide Dirty, LunJob, LunOk;
  }

  lemma BlanksAgree(st: State, p: seq<Place>, i: nat)
    requires Framed(st, p) && i < MAX_NUM_PARTITIONS && !(i < |p| && p[i].handle.Record?)
    ensures st.mem[i] == st.bak[i]
  {
    hide Data1Zero, DiskOrder;
    if i < |p| {
      assert Fits(st.mem[i], p[i]) && Fits(st.bak[i], p[i]);
    }
  }

  /** Memory and shadow agree in the records of LUNs behind s. */
  ghost predicate NoChangeBehind(st: State, p: seq<Place>, s: nat)
    requires Framed(st, p)
  {
    forall i :: 0 <= i < |p| && p[i].handle.Record? && p[i].lun > s ==> st.mem[i] == st.bak[i]
  }

  /**
   * No copy that has something to write has a refused header; or the first such copy is a
   * backup, and no LUN behind it has anything to write.
   */
  ghost predicate Completes(st: State, p: seq<Place>, ut: UpdateType)
    requires Framed(st, p)
  {
    var s := FirstStop(st, ut, 0);
    s == |st.luns| || (!PrimaryRefused(st, ut, s) && NoChangeBehind(st, p, s))
  }

  /** The primary of a LUN needs rewriting exactly if memory and shadow differ in one of its records. */
  lemma PrimaryDirty(st: State, p: seq<Place>, ut: UpdateType, k: nat) returns (i: nat)
    requires Ready(st, p, ut) && k < |st.luns| && st.luns[k].Lun?
    requires StateOk(st) && Dirty(LunJob(st.mem, st.count, k, ut, st.luns[k], false))
    ensures RecordOf(p, i, k) && i < st.count && st.mem[i] != st.bak[i] && !Holds(st.luns[k], p[i].handle.slot, st.mem[i])
  {
    hide TableFits, Holds, DiskOrder, Takes, SlotFor, GuidAt, AttributesAt, LunOk, SlotAt, Differs, Aligned;
    var j := LunJob(st.mem, st.count, k, ut, st.luns[k], false);
    i :| 0 <= i < j.count && Writes(j, i);
    TakerIsRecord(st, p, ut, k, st.luns[k], false, i);
    PrimaryAligned(st, p, ut, k);
    RecordTakes(st, p, ut, k, st.luns[k], false, i);
    ShadowFollows(st.luns[k], p[i].handle.slot, st.mem[i], st.bak[i], ut);
    HoldsOne(st.luns[k], p[i].handle.slot, st.mem[i], st.bak[i]);
  }

  lemma HoldsOne(l: Lun, k: nat, e: Entry, b: Entry)
    requires l.Lun? && LunOk(l) && k < MAX_NUM_PARTITIONS && Holds(l, k, b) && e != b && e.lun == b.lun
    ensures !Holds(l, k, e)
  {
  }

  /**
   * UpdatePartitionAttributes ends with memory, shadow and primary in step exactly if no
   * refused header is in its way, whatever the backup tables hold.  Every LUN is untouched
   * or has only type GUIDs, attribute words and checksums rewritten, and the checksums of
   * every copy rewritten validate if its header declares 92 bytes.
   */
  lemma UpdateSyncs(st: State, p: seq<Place>, ut: UpdateType)
    requires Ready(st, p, ut) && !st.device.UnknownDevice?
    ensures var r := UpdatePartitionAttributes(st, ut);
      && r.mem == st.mem && AllUpdated(st, r)
      && (InStep(r, p) <==> Completes(st, p, ut))
  {
    hide DiskOrder, TableFits, Holds, LunOk, LunUpdated, Mirrored, DiffersOnlyIn, UpdateLuns, FirstStop, LunStops, Dirty, CopyStops;
    ReadyOk(st, p, ut);
    var s, r := FirstStop(st, ut, 0), UpdatePartitionAttributes(st, ut);
    if st.mem == st.bak {
      assert InStep(r, p);
      AgreementCompletes(st, p, ut);
    } else {
      LunsCorrect(st, p, ut, 0);
      ShadowsAfter(st, p, r, s);
      if PrimaryRefused(st, ut, s) {
        var i := RefusedRecord(st, p, ut, s);
        NotMirrored(r, p, i);
      }
    }
  }

  lemma RefusedRecord(st: State, p: seq<Place>, ut: UpdateType, s: nat) returns (i: nat)
    requires Ready(st, p, ut) && StateOk(st) && s < |st.luns| && PrimaryRefused(st, ut, s)
    ensures RecordOf(p, i, s) && i < st.count && st.mem[i] != st.bak[i] && !Holds(st.luns[s], p[i].handle.slot, st.mem[i])
  {
    hide Ready, Dirty, TableBytesOk, LunJob, Holds, Header, LunOk;
    i := PrimaryDirty(st, p, ut, s);
  }

  lemma NotMirrored(r: State, p: seq<Place>, i: nat)
    requires i < |p| && p[i].handle.Record?
    ensures InStep(r, p) ==>
      i < |r.mem| && p[i].handle.slot < MAX_NUM_PARTITIONS && p[i].lun < |r.luns| && r.luns[p[i].lun].Lun? && LunOk(r.luns[p[i].lun])
      && Holds(r.luns[p[i].lun], p[i].handle.slot, r.mem[i])
  {
    hide TableFits, Holds, DiskOrder;
  }

  /** When memory and shadow agree, no primary is in the way. */
  lemma AgreementCompletes(st: State, p: seq<Place>, ut: UpdateType)
    requires Ready(st, p, ut) && st.mem == st.bak
    ensures Completes(st, p, ut)
  {
    hide DiskOrder, TableFits, Mirrored, DiffersOnlyIn, LunStops, Dirty, LunOk, FirstStop;
    var s := FirstStop(st, ut, 0);
    if s < |st.luns| && PrimaryRefused(st, ut, s) {
      var i := RefusedRecord(st, p, ut, s);
    }
  }

  /** After the loop memory and shadow agree exactly if they did behind the LUN where it ended. */
  lemma ShadowsAfter(st: State, p: seq<Place>, r: State, s: nat)
    requires Framed(st, p) && r.mem == st.mem && |r.bak| == |st.bak|
    requires forall i :: 0 <= i < MAX_NUM_PARTITIONS ==>
      r.bak[i] == if RecordBetween(p, i, 0, s) then st.mem[i] else st.bak[i]
    ensures r.mem == r.bak <==> NoChangeBehind(st, p, s)
  {
    hide DiskOrder, TableFits;
    if NoChangeBehind(st, p, s) {
      forall i | 0 <= i < MAX_NUM_PARTITIONS
        ensures r.bak[i] == r.mem[i]
      {
        if !(i < |p| && p[i].handle.Record?) {
          BlanksAgree(st, p, i);
        }
      }
    }
  }

  // ---- disks whose headers are accepted ----

  /** The headers of all LUNs with partitions declare entry arrays that are accepted. */
  ghost predicate Accepting(luns: seq<Lun>, p: seq<Place>)
    requires PlacesOk(p, luns) && forall l :: 0 <= l < |luns| ==> LunOk(luns[l])
  {
    forall i :: 0 <= i < |p| && p[i].handle.Record? ==>
      TableBytesOk(Header(luns[p[i].lun], false)) && TableBytesOk(Header(luns[p[i].lun], true))
  }

  /** A copy in the way lies on a LUN with a partition. */
  lemma StopHasRecord(st: State, p: seq<Place>, ut: UpdateType, s: nat, backup: bool)
    requires Framed(st, p) && s < |st.luns| && st.luns[s].Lun? && CopyStops(st, ut, s, backup)
    ensures exists i :: 0 <= i < |p| && RecordOf(p, i, s)
  {
    hide DiskOrder, TableFits, TableBytesOk, Header, Takes, Differs, LunOk;
    var j := LunJob(st.mem, st.count, s, ut, st.luns[s], backup);
    var i :| 0 <= i < j.count && Writes(j, i);
    TakerIsRecord(st, p, ut, s, st.luns[s], backup, i);
  }

  /** On them no update stops. */
  lemma AcceptingUnstopped(st: State, p: seq<Place>, ut: UpdateType)
    requires Framed(st, p) && Accepting(st.luns, p)
    ensures FirstStop(st, ut, 0) == |st.luns|
  {
    hide DiskOrder, TableFits, TableBytesOk, Header, FirstStop, Dirty, LunOk;
    var s := FirstStop(st, ut, 0);
    FirstStopIs(st, ut, 0);
    if s < |st.luns| {
      if CopyStops(st, ut, s, false) {
        StopHasRecord(st, p, ut, s, false);
      } else {
        StopHasRecord(st, p, ut, s, true);
      }
    }
  }

  lemma AcceptingCompletes(st: State, p: seq<Place>, ut: UpdateType)
    requires Framed(st, p) && FirstStop(st, ut, 0) == |st.luns|
    ensures Completes(st, p, ut)
  {
    hide DiskOrder, TableFits, FirstStop;
  }

  /** The header's words outside its checksums stay. */
  lemma SameDeclares(l: Lun, l': Lun, backup: bool)
    requires LunUpdated(l, l')
    ensures PlainHeader(Header(l', backup)) == PlainHeader(Header(l, backup))
    ensures TableBytesOk(Header(l', backup)) == TableBytesOk(Header(l, backup))
  {
    hide WordAt, Times, CopyKept, InWritten;
    var h, h' := Header(l, backup), Header(l', backup);
    forall d | 0 <= d < l.blockSize && !InCrc(d)
      ensures h'[d] == h[d]
    {
      HeaderOffFields(l, backup, d);
    }
    SameWord(h, h', HEADER_SIZE_OFFSET);
    SameWord(h, h', ENTRY_COUNT_OFFSET);
    SameWord(h, h', ENTRY_SIZE_OFFSET);
  }

  lemma HeaderOffFields(l: Lun, backup: bool, d: nat)
    requires l.Lun? && LunOk(l) && d < l.blockSize && !InCrc(d)
    ensures !InWritten(l, HeaderAt(l, backup) + d)
  {
  }

  lemma AcceptingKept(st: State, r: State, p: seq<Place>)
    requires Framed(st, p) && Framed(r, p) && AllUpdated(st, r) && Accepting(st.luns, p)
    ensures Accepting(r.luns, p)
  {
    hide DiskOrder, TableFits, TableBytesOk, Header, LunUpdated;
    forall i | 0 <= i < |p| && p[i].handle.Record?
      ensures TableBytesOk(Header(r.luns[p[i].lun], false)) && TableBytesOk(Header(r.luns[p[i].lun], true))
    {
      var k := p[i].lun;
      if r.luns[k] != st.luns[k] {
        SameDeclares(st.luns[k], r.luns[k], false);
        SameDeclares(st.luns[k], r.luns[k], true);
      }
    }
  }

  // ---- a disk that goes stale ----

  /**
   * When the primary of LUN s is the first copy in the way and no LUN behind it has a
   * change, memory and shadow agree afterwards, the disk does not, and no later update
   * writes anything; if the LUNs before s need no rewriting, the disk is as before.
   */
  lemma RefusedGoesStale(st: State, p: seq<Place>, ut: UpdateType)
    requires Ready(st, p, ut) && !st.device.UnknownDevice? && st.mem != st.bak && StateOk(st)
    requires PrimaryRefused(st, ut, FirstStop(st, ut, 0)) && NoChangeBehind(st, p, FirstStop(st, ut, 0))
    ensures var s, r := FirstStop(st, ut, 0), UpdatePartitionAttributes(st, ut);
      && r.mem == r.bak == st.mem && r.luns[s..] == st.luns[s..] && !InStep(r, p)
      && ((forall l :: 0 <= l < s ==> LunClean(st, ut, l)) ==> r.luns == st.luns)
      && forall later :: UpdatePartitionAttributes(r, later) == r
  {
    hide DiskOrder, TableFits, Holds, LunOk, LunUpdated, Mirrored, DiffersOnlyIn, UpdateLuns, FirstStop, LunStops, PrimaryRefused, LunClean;
    var s, r := FirstStop(st, ut, 0), UpdatePartitionAttributes(st, ut);
    LunsCorrect(st, p, ut, 0);
    ShadowsAfter(st, p, r, s);
    UpdateSyncs(st, p, ut);
    RefusedIsLun(st, ut, s);
  }

  lemma RefusedIsLun(st: State, ut: UpdateType, s: nat)
    requires StateOk(st) && s <= |st.luns| && PrimaryRefused(st, ut, s)
    ensures s < |st.luns|
  {
  }
}
