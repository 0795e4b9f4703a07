/**
 * What UpdatePartitionAttributes does to the backup tables, which may hold anything: stale,
 * blank or foreign entries (PartitionTableUpdate.c, lines 292-359).
 */
module GptBackup {
  import opened Crc32Spec
  import opened SlotTypes
  import opened SlotSpec
  import opened GptUpdate
  import opened CopyUpdate
  import opened GptSync

  // ---- the backup tables ----

  /** Entry i is a partition on a configured LUN. */
  predicate OnDisk(st: State, i: nat): (r: bool)
    ensures r ==> StateOk(st) && i < st.count <= |st.mem| == MAX_NUM_PARTITIONS
  {
    && StateOk(st) && i < st.count && !Data1Zero(st.mem[i].typeGuid)
    && st.mem[i].lun < |st.luns| && st.luns[st.mem[i].lun].Lun?
  }

  /** The type GUID and the attributes in entry i's slot of the backup table. */
  function BackupGuid(st: State, i: nat): Guid
    requires OnDisk(st, i)
  {
    var l := st.luns[st.mem[i].lun];
    GuidAt(l.bytes, SlotAt(l, true, Rank(st.mem, i, st.mem[i].lun)))
  }

  function BackupAttributes(st: State, i: nat): bv64
    requires OnDisk(st, i)
  {
    var l := st.luns[st.mem[i].lun];
    AttributesAt(l.bytes, SlotAt(l, true, Rank(st.mem, i, st.mem[i].lun)))
  }

  /** The backup tables agree with memory in the fields that an update writes. */
  ghost predicate BackupAgrees(st: State, ut: UpdateType) {
    && StateOk(st)
    && forall i :: 0 <= i < st.count && OnDisk(st, i) ==>
         && (ut.guid ==> BackupGuid(st, i) == st.mem[i].typeGuid)
         && (ut.attributes ==> BackupAttributes(st, i) == st.mem[i].attributes)
  }

  /** Every backup GUID lets the entry pointer pass; all do when GUIDs are written. */
  ghost predicate BackupPasses(st: State, ut: UpdateType) {
    forall i :: 0 <= i < st.count && OnDisk(st, i) ==> Passes(ut, BackupGuid(st, i), st.mem[i].typeGuid)
  }

  /** In st' the fields named have been written to the backup tables, the others are as in st. */
  ghost predicate BackupWritten(st: State, st': State, ut: UpdateType) {
    forall i :: 0 <= i < st.count && OnDisk(st, i) ==>
      && OnDisk(st', i)
      && BackupGuid(st', i) == (if ut.guid then st.mem[i].typeGuid else BackupGuid(st, i))
      && BackupAttributes(st', i) == (if ut.attributes then st.mem[i].attributes else BackupAttributes(st, i))
  }

  /** Partitions on a configured LUN are the records. */
  lemma OnDiskIsRecord(st: State, p: seq<Place>, i: nat)
    requires Framed(st, p)
    ensures OnDisk(st, i) <==> i < |p| && p[i].handle.Record?
  {
    hide Data1Zero, TableFits, DiskOrder;
    if i < |p| {
      PlaceFits(st, p, i);
      BlankHasNoGuid(p[i].lun);
    }
  }

  // ---- one LUN ----

  /** The backup table of LUN k as the backup pass finds it. */
  function BackupJob(st: State, ut: UpdateType, k: nat): (j: Job)
    requires StateOk(st) && k < |st.luns| && st.luns[k].Lun?
    ensures JobOk(j) && j.count == st.count && j.mem == st.mem && j.lun == k && j.ut == ut
  {
    LunJob(st.mem, st.count, k, ut, st.luns[k], true)
  }

  /** The primary pass leaves it alone. */
  lemma BackupJobKept(st: State, p: seq<Place>, ut: UpdateType, k: nat, n: nat)
    requires Ready(st, p, ut) && k < |st.luns| && st.luns[k].Lun? && !st.device.UnknownDevice?
    requires StateOk(st) && !CopyStops(st, ut, k, false) && n <= st.count
    ensures var l, f := st.luns[k], PrimaryPass(st, ut, k);
      SameShape(l, f.lun) && CopyFrame(l, f.lun, false) &&
      var j, j' := BackupJob(st, ut, k), LunJob(st.mem, st.count, k, ut, f.lun, true);
      && SlotFor(j', n) == SlotFor(j, n)
      && (n < st.count ==> (Takes(j', n) <==> Takes(j, n)))
      && (n < st.count ==> GuidAt(j'.buf, SlotFor(j', n)) == GuidAt(j.buf, SlotFor(j, n)))
      && (n < st.count ==> AttributesAt(j'.buf, SlotFor(j', n)) == AttributesAt(j.buf, SlotFor(j, n)))
  {
    hide Ready, GuidAt, AttributesAt, Takes, SlotFor, PrimaryPass, CopyFrame, CopyStops, Writes;
    BackupFound(st, p, ut, k);
    var l, f := st.luns[k], PrimaryPass(st, ut, k);
    OtherCopyKept(l, f.lun, false);
    SameJob(BackupJob(st, ut, k), LunJob(st.mem, st.count, k, ut, f.lun, true), n);
  }

  /** The exact backup table, when no pass over the LUN gives up: an entry's fields stand in the slot it takes ... */
  lemma BackupSlot(st: State, p: seq<Place>, ut: UpdateType, k: nat, i: nat)
    requires Ready(st, p, ut) && k < |st.luns| && st.luns[k].Lun? && !st.device.UnknownDevice? && i < st.count
    requires StateOk(st) && !LunStops(st, ut, k) && Takes(BackupJob(st, ut, k), i)
    ensures var at, l, l' := SlotFor(BackupJob(st, ut, k), i), st.luns[k], BothPasses(st, ut, k).lun;
      && at + PARTITION_ENTRY_SIZE <= |l.bytes| && SameShape(l, l')
      && GuidAt(l'.bytes, at) == (if ut.guid then st.mem[i].typeGuid else GuidAt(l.bytes, at))
      && AttributesAt(l'.bytes, at) == (if ut.attributes then st.mem[i].attributes else AttributesAt(l.bytes, at))
  {
    hide Ready, GuidAt, AttributesAt, PrimaryPass, BothPasses, CopyDone, CopyFrame, CopySound, Takes, SlotFor, CopyStops, Dirty, PlainHeader, Header;
    BackupDone(st, p, ut, k);
    BackupJobKept(st, p, ut, k, i);
    var f, g := PrimaryPass(st, ut, k), BothPasses(st, ut, k);
    assert |st.mem| == |f.bak| == |g.bak| == MAX_NUM_PARTITIONS && st.count <= MAX_NUM_PARTITIONS;
    CopyDoneAt(st.mem, f.bak, st.count, k, ut, f.lun, true, g, i);
  }

  /** ... and slots behind the last one taken are as before. */
  lemma BackupRest(st: State, p: seq<Place>, ut: UpdateType, k: nat, x: nat)
    requires Ready(st, p, ut) && k < |st.luns| && st.luns[k].Lun? && !st.device.UnknownDevice?
    requires StateOk(st) && !LunStops(st, ut, k)
    requires SlotFor(BackupJob(st, ut, k), st.count) <= x < TableAt(st.luns[k], true) + MAX_PARTITION_ENTRIES_SZ
    ensures x < |st.luns[k].bytes| == |BothPasses(st, ut, k).lun.bytes| && BothPasses(st, ut, k).lun.bytes[x] == st.luns[k].bytes[x]
  {
    var l := st.luns[k];
    assert TableAt(l, true) <= x < |l.bytes| && BackupJob(st, ut, k).table == TableAt(l, true);
    hide Ready, GuidAt, AttributesAt, PrimaryPass, BothPasses, CopyFrame, CopySound, Takes, SlotFor, SlotDone, TableAt, LunOk, CopyStops, Dirty;
    BackupDone(st, p, ut, k);
    BackupJobKept(st, p, ut, k, st.count);
    var f, g := PrimaryPass(st, ut, k), BothPasses(st, ut, k);
    OtherCopyKept(l, f.lun, false);
    RestByte(LunJob(st.mem, st.count, k, ut, f.lun, true), g.lun.bytes, x);
    SameTableAt(l, f.lun);
  }

  lemma RestByte(j: Job, bytes: seq<Byte>, x: nat)
    requires JobOk(j) && |bytes| == |j.buf| && RestKept(j, bytes)
    ensures SlotFor(j, j.count) <= x < j.table + MAX_PARTITION_ENTRIES_SZ && x < |bytes| ==> bytes[x] == j.buf[x]
  {
    hide SlotFor;
  }

  lemma SameTableAt(l: Lun, l': Lun)
    requires SameShape(l, l')
    ensures TableAt(l', true) == TableAt(l, true)
  {
  }

  /** When a pass over the LUN gives up, its backup table is as before. */
  lemma BackupUnwritten(st: State, p: seq<Place>, ut: UpdateType, k: nat)
    requires Ready(st, p, ut) && k < |st.luns| && st.luns[k].Lun? && !st.device.UnknownDevice?
    requires StateOk(st) && LunStops(st, ut, k)
    ensures var l, l' := st.luns[k], BothPasses(st, ut, k).lun;
      && SameShape(l, l')
      && forall x :: TableAt(l, true) <= x < TableAt(l, true) + MAX_PARTITION_ENTRIES_SZ ==> l'.bytes[x] == l.bytes[x]
  {
    hide Ready, PrimaryPass, BothPasses, CopyFrame, CopySound, CopyDone, CopyStops, Dirty, PlainHeader, Header, TableAt;
    if CopyStops(st, ut, k, false) {
      LunCorrect(st, p, ut, k);
      FrameRefl(st.luns[k], false);
    } else {
      BackupFound(st, p, ut, k);
      BackupDone(st, p, ut, k);
      OtherCopyKept(st.luns[k], PrimaryPass(st, ut, k).lun, false);
    }
  }

  // ---- one entry's backup slot ----

  /** Entry m is the one that takes entry i's backup slot. */
  predicate TakesSlotOf(st: State, ut: UpdateType, m: nat, i: nat): (r: bool)
    requires OnDisk(st, i)
    ensures r ==> m < st.count
  {
    var k := st.mem[i].lun;
    m < st.count && Takes(BackupJob(st, ut, k), m) && Taken(BackupJob(st, ut, k), m) == Rank(st.mem, i, k)
  }

  /** Entry i's backup slot lies behind the last one taken. */
  predicate SlotIsBehind(st: State, ut: UpdateType, i: nat)
    requires OnDisk(st, i)
  {
    Taken(BackupJob(st, ut, st.mem[i].lun), st.count) <= Rank(st.mem, i, st.mem[i].lun)
  }

  /** Entry i's fields in the backup table of its LUN, when the LUN has become l. */
  ghost predicate SlotHolds(st: State, i: nat, l: Lun, g: Guid, a: bv64)
    requires OnDisk(st, i)
  {
    && SameShape(st.luns[st.mem[i].lun], l)
    && var at := SlotAt(st.luns[st.mem[i].lun], true, Rank(st.mem, i, st.mem[i].lun));
       GuidAt(l.bytes, at) == g && AttributesAt(l.bytes, at) == a
  }

  /** What both passes leave in entry i's backup slot, unless one of them gives up: the fields of the entry that takes it. */
  lemma BackupTaken(st: State, p: seq<Place>, ut: UpdateType, i: nat, m: nat)
    requires Ready(st, p, ut) && !st.device.UnknownDevice? && OnDisk(st, i) && !LunStops(st, ut, st.mem[i].lun)
    requires TakesSlotOf(st, ut, m, i)
    ensures SlotHolds(st, i, BothPasses(st, ut, st.mem[i].lun).lun,
      if ut.guid then st.mem[m].typeGuid else BackupGuid(st, i),
      if ut.attributes then st.mem[m].attributes else BackupAttributes(st, i))
  {
    var k := st.mem[i].lun;
    assert SlotFor(BackupJob(st, ut, k), m) == SlotAt(st.luns[k], true, Rank(st.mem, i, k));
    hide Ready, BothPasses, GuidAt, AttributesAt, Takes, Taken, SlotFor, BackupJob, SlotAt, Rank, Data1Zero, LunOk, LunStops;
    BackupSlot(st, p, ut, k, m);
  }

  lemma BackupBehind(st: State, p: seq<Place>, ut: UpdateType, i: nat)
    requires Ready(st, p, ut) && !st.device.UnknownDevice? && OnDisk(st, i) && !LunStops(st, ut, st.mem[i].lun)
    requires SlotIsBehind(st, ut, i)
    ensures SlotHolds(st, i, BothPasses(st, ut, st.mem[i].lun).lun, BackupGuid(st, i), BackupAttributes(st, i))
  {
    var k := st.mem[i].lun;
    var l, l' := st.luns[k], BothPasses(st, ut, k).lun;
    var at := SlotAt(l, true, Rank(st.mem, i, k));
    assert SlotFor(BackupJob(st, ut, k), st.count) <= at && at + PARTITION_ENTRY_SIZE <= TableAt(l, true) + MAX_PARTITION_ENTRIES_SZ;
    hide Ready, BothPasses, GuidAt, AttributesAt, Takes, Taken, SlotFor, BackupJob, SlotAt, Rank, TableAt, Data1Zero, LunOk, LunStops, LunUpdated;
    LunCorrect(st, p, ut, k);
    UpdatedShape(l, l');
    forall x | at <= x < at + PARTITION_ENTRY_SIZE
      ensures x < |l.bytes| == |l'.bytes| && l'.bytes[x] == l.bytes[x]
    {
      BackupRest(st, p, ut, k, x);
    }
    SameSlot(l'.bytes, l.bytes, at);
  }

  lemma BackupStopped(st: State, p: seq<Place>, ut: UpdateType, i: nat)
    requires Ready(st, p, ut) && !st.device.UnknownDevice? && OnDisk(st, i) && LunStops(st, ut, st.mem[i].lun)
    ensures SlotHolds(st, i, BothPasses(st, ut, st.mem[i].lun).lun, BackupGuid(st, i), BackupAttributes(st, i))
  {
    var k := st.mem[i].lun;
    var l, l' := st.luns[k], BothPasses(st, ut, k).lun;
    var at := SlotAt(l, true, Rank(st.mem, i, k));
    assert TableAt(l, true) <= at && at + PARTITION_ENTRY_SIZE <= TableAt(l, true) + MAX_PARTITION_ENTRIES_SZ <= |l.bytes|;
    hide Ready, BothPasses, GuidAt, AttributesAt, SlotAt, Rank, TableAt, Data1Zero, LunOk, LunStops;
    BackupUnwritten(st, p, ut, k);
    SameSlot(l'.bytes, l.bytes, at);
  }

  lemma UpdatedShape(l: Lun, l': Lun)
    requires LunUpdated(l, l')
    ensures SameShape(l, l')
  {
  }

  // ---- the whole update ----

  /** LUN k as the loop over the LUNs finds it and leaves it, if it gets there. */
  lemma {:induction false} LunReached(st: State, p: seq<Place>, ut: UpdateType, from: nat, k: nat) returns (m: State)
    requires Ready(st, p, ut) && from <= k < |st.luns| && st.luns[k].Lun? && !st.device.UnknownDevice?
    requires StateOk(st) && k <= FirstStop(st, ut, from)
    ensures Ready(m, p, ut) && m == st.(bak := m.bak, luns := m.luns) && k < |m.luns| && m.luns[k] == st.luns[k] && StateOk(m)
    ensures k < |UpdateLuns(st, ut, from).luns| && UpdateLuns(st, ut, from).luns[k] == BothPasses(m, ut, k).lun
    decreases k - from
  {
    hide Ready, BothPasses, UpdateLuns, FirstStop, LunStops, LunOk, LunUpdated, LunsDone, LunClean, StateOk, AfterLun;
    LoopStep(st, ut, from);
    if st.luns[from].Unconfigured? {
      m := LunReached(st, p, ut, from + 1, k);
    } else {
      LunCorrect(st, p, ut, from);
      var st' := AfterLun(st, from, BothPasses(st, ut, from));
      AfterIs(st, from, BothPasses(st, ut, from));
      if from == k {
        m := st;
        if !LunStops(st, ut, k) {
          NoRefusal(st, ut, k);
          LunsCorrect(st', p, ut, k + 1);
          EarlierKept(st', p, ut, k + 1, UpdateLuns(st', ut, k + 1), k);
        }
      } else {
        NoRefusal(st, ut, from);
        SameStops(st, st', ut, from + 1);
        m := LunReached(st', p, ut, from + 1, k);
      }
    }
  }

  lemma EarlierKept(st: State, p: seq<Place>, ut: UpdateType, k: nat, r: State, l: nat)
    requires StateOk(st) && k <= |st.luns| && l < k && LunsDone(st, p, ut, k, FirstStop(st, ut, k), r)
    ensures l < |r.luns| && r.luns[l] == st.luns[l]
  {
    hide Ready, LunOk, LunClean, LunUpdated, PrimaryRefused;
  }

  lemma LaterKept(st: State, p: seq<Place>, ut: UpdateType, s: nat, r: State, l: nat)
    requires StateOk(st) && s < l < |st.luns| && LunsDone(st, p, ut, 0, s, r)
    ensures l < |r.luns| && r.luns[l] == st.luns[l]
  {
    hide Ready, LunOk, LunClean, LunUpdated, PrimaryRefused;
  }

  /** The update has something to write and gets through LUN k. */
  ghost predicate Passed(st: State, ut: UpdateType, k: nat)
    requires StateOk(st)
  {
    st.mem != st.bak && k < FirstStop(st, ut, 0)
  }

  /** In r, entry i's backup slot holds the fields named of entry m, and otherwise what it held in st. */
  predicate SlotWritten(st: State, r: State, ut: UpdateType, m: nat, i: nat)
    requires OnDisk(st, i) && OnDisk(r, i) && m < st.count
  {
    && BackupGuid(r, i) == (if ut.guid then st.mem[m].typeGuid else BackupGuid(st, i))
    && BackupAttributes(r, i) == (if ut.attributes then st.mem[m].attributes else BackupAttributes(st, i))
  }

  predicate SlotKept(st: State, r: State, i: nat)
    requires OnDisk(st, i) && OnDisk(r, i)
  {
    BackupGuid(r, i) == BackupGuid(st, i) && BackupAttributes(r, i) == BackupAttributes(st, i)
  }

  lemma UpdateOnDisk(st: State, p: seq<Place>, ut: UpdateType, i: nat)
    requires Ready(st, p, ut) && !st.device.UnknownDevice? && OnDisk(st, i)
    ensures var r := UpdatePartitionAttributes(st, ut);
      OnDisk(r, i) && AllUpdated(st, r) && r.mem == st.mem && r.count == st.count
  {
    hide Ready, UpdatePartitionAttributes, GuidAt, AttributesAt, Data1Zero, LunOk, AllUpdated, InStep, Completes, Rank, SlotAt;
    UpdateSyncs(st, p, ut);
    PlaceStays(st, UpdatePartitionAttributes(st, ut), i);
  }

  /** A LUN that the update gets to, before it gets there. */
  lemma EntryReached(st: State, p: seq<Place>, ut: UpdateType, i: nat) returns (m: State)
    requires Ready(st, p, ut) && !st.device.UnknownDevice? && OnDisk(st, i)
    requires st.mem != st.bak && st.mem[i].lun <= FirstStop(st, ut, 0)
    ensures Ready(m, p, ut) && m == st.(bak := m.bak, luns := m.luns) && OnDisk(m, i)
    ensures st.mem[i].lun < |m.luns| && m.luns[st.mem[i].lun] == st.luns[st.mem[i].lun]
    ensures BackupGuid(m, i) == BackupGuid(st, i) && BackupAttributes(m, i) == BackupAttributes(st, i)
    ensures LunStops(m, ut, st.mem[i].lun) <==> st.mem[i].lun == FirstStop(st, ut, 0)
    ensures st.mem[i].lun < |UpdatePartitionAttributes(st, ut).luns|
    ensures UpdatePartitionAttributes(st, ut).luns[st.mem[i].lun] == BothPasses(m, ut, st.mem[i].lun).lun
  {
    hide Ready, BothPasses, FirstStop, LunStops, GuidAt, AttributesAt, Data1Zero, LunOk, Rank, SlotAt, UpdateLuns;
    var k := st.mem[i].lun;
    FirstStopIs(st, ut, 0);
    m := LunReached(st, p, ut, 0, k);
    SamePlace(st, m, i);
    SameLunStops(st, m, ut, k);
  }

  lemma BackupTakenAfter(st: State, p: seq<Place>, ut: UpdateType, i: nat, n: nat)
    requires Ready(st, p, ut) && !st.device.UnknownDevice? && OnDisk(st, i)
    requires Passed(st, ut, st.mem[i].lun) && TakesSlotOf(st, ut, n, i)
    ensures var r := UpdatePartitionAttributes(st, ut); OnDisk(r, i) && SlotWritten(st, r, ut, n, i)
  {
    hide Ready, UpdatePartitionAttributes, BothPasses, FirstStop, LunStops, TakesSlotOf, OnDisk, BackupGuid, BackupAttributes, SlotHolds, AllUpdated;
    UpdateOnDisk(st, p, ut, i);
    var m := EntryReached(st, p, ut, i);
    SameTaker(st, m, ut, n, i);
    BackupTaken(m, p, ut, i, n);
    HeldAfter(st, m, UpdatePartitionAttributes(st, ut), i,
      if ut.guid then st.mem[n].typeGuid else BackupGuid(st, i),
      if ut.attributes then st.mem[n].attributes else BackupAttributes(st, i));
  }

  lemma BackupKeptAfter(st: State, p: seq<Place>, ut: UpdateType, i: nat)
    requires Ready(st, p, ut) && !st.device.UnknownDevice? && OnDisk(st, i)
    requires !Passed(st, ut, st.mem[i].lun) || SlotIsBehind(st, ut, i)
    ensures var r := UpdatePartitionAttributes(st, ut); OnDisk(r, i) && SlotKept(st, r, i)
  {
    hide Ready, UpdateLuns, BothPasses, FirstStop, LunStops, SlotIsBehind, OnDisk, BackupGuid, BackupAttributes, SlotHolds, AllUpdated, LunOk;
    var r, k, s := UpdatePartitionAttributes(st, ut), st.mem[i].lun, FirstStop(st, ut, 0);
    UpdateOnDisk(st, p, ut, i);
    if st.mem != st.bak {
      if k > s {
        OnDiskLun(st, i);
        LunsCorrect(st, p, ut, 0);
        LaterKept(st, p, ut, s, r, k);
        SamePlace(st, r, i);
      } else {
        var m := EntryReached(st, p, ut, i);
        SameTaker(st, m, ut, i, i);
        if k == s {
          BackupStopped(m, p, ut, i);
        } else {
          BackupBehind(m, p, ut, i);
        }
        HeldAfter(st, m, r, i, BackupGuid(st, i), BackupAttributes(st, i));
      }
    }
  }

  lemma OnDiskLun(st: State, i: nat)
    requires OnDisk(st, i)
    ensures st.mem[i].lun < |st.luns| && st.luns[st.mem[i].lun].Lun?
  {
  }

  /**
   * The backup tables after an update, whatever they held: on a LUN that the update gets
   * through, entry i's slot holds the fields of the entry that takes it, if one does;
   * otherwise it is as before.
   */
  lemma BackupAfter(st: State, p: seq<Place>, ut: UpdateType, i: nat)
    requires Ready(st, p, ut) && !st.device.UnknownDevice? && OnDisk(st, i)
    ensures OnDisk(UpdatePartitionAttributes(st, ut), i)
    ensures forall m: nat :: Passed(st, ut, st.mem[i].lun) && TakesSlotOf(st, ut, m, i) ==>
      SlotWritten(st, UpdatePartitionAttributes(st, ut), ut, m, i)
    ensures !Passed(st, ut, st.mem[i].lun) || SlotIsBehind(st, ut, i) ==> SlotKept(st, UpdatePartitionAttributes(st, ut), i)
  {
    hide Ready, UpdatePartitionAttributes, Passed, SlotIsBehind, OnDisk, TakesSlotOf, SlotWritten, SlotKept;
    UpdateOnDisk(st, p, ut, i);
    forall m: nat | Passed(st, ut, st.mem[i].lun) && TakesSlotOf(st, ut, m, i)
      ensures SlotWritten(st, UpdatePartitionAttributes(st, ut), ut, m, i)
    {
      BackupTakenAfter(st, p, ut, i, m);
    }
    if !Passed(st, ut, st.mem[i].lun) || SlotIsBehind(st, ut, i) {
      BackupKeptAfter(st, p, ut, i);
    }
  }

  lemma HeldAfter(st: State, m: State, r: State, i: nat, g: Guid, a: bv64)
    requires OnDisk(st, i) && OnDisk(m, i) && OnDisk(r, i) && AllUpdated(st, r) && r.mem == st.mem == m.mem && r.count == st.count == m.count
    requires m.luns[st.mem[i].lun] == st.luns[st.mem[i].lun] && SlotHolds(m, i, r.luns[st.mem[i].lun], g, a)
    ensures BackupGuid(r, i) == g && BackupAttributes(r, i) == a
  {
    hide GuidAt, AttributesAt, Data1Zero, Rank, LunUpdated;
    SameSlotAt(st.luns[st.mem[i].lun], r.luns[st.mem[i].lun], Rank(st.mem, i, st.mem[i].lun));
  }

  lemma SameTaker(st: State, m: State, ut: UpdateType, n: nat, i: nat)
    requires OnDisk(st, i) && OnDisk(m, i) && m.mem == st.mem && m.count == st.count
    requires m.luns[st.mem[i].lun] == st.luns[st.mem[i].lun]
    ensures TakesSlotOf(m, ut, n, i) == TakesSlotOf(st, ut, n, i) && SlotIsBehind(m, ut, i) == SlotIsBehind(st, ut, i)
  {
  }

  lemma SameLunStops(st: State, m: State, ut: UpdateType, k: nat)
    requires StateOk(st) && StateOk(m) && m.mem == st.mem && m.count == st.count
    requires k < |st.luns| && k < |m.luns| && m.luns[k] == st.luns[k]
    ensures LunStops(m, ut, k) == LunStops(st, ut, k)
  {
    hide Dirty, LunJob, TableBytesOk, Header, LunOk;
  }

  /** Entry i's backup slot depends on the entry's LUN only. */
  lemma SamePlace(st: State, m: State, i: nat)
    requires OnDisk(st, i) && StateOk(m) && m.mem == st.mem && m.count == st.count
    requires st.mem[i].lun < |m.luns| && m.luns[st.mem[i].lun] == st.luns[st.mem[i].lun]
    ensures OnDisk(m, i) && BackupGuid(m, i) == BackupGuid(st, i) && BackupAttributes(m, i) == BackupAttributes(st, i)
  {
  }

  /** Entry i is still on the disk after an update, in the same slot. */
  lemma PlaceStays(st: State, r: State, i: nat)
    requires OnDisk(st, i) && StateOk(r) && AllUpdated(st, r) && r.mem == st.mem && r.count == st.count
    ensures var k := st.mem[i].lun;
      var at := SlotAt(st.luns[k], true, Rank(st.mem, i, k));
      && OnDisk(r, i) && at + PARTITION_ENTRY_SIZE <= |r.luns[k].bytes|
      && BackupGuid(r, i) == GuidAt(r.luns[k].bytes, at) && BackupAttributes(r, i) == AttributesAt(r.luns[k].bytes, at)
  {
    hide GuidAt, AttributesAt, Data1Zero, Rank, SlotAt, LunUpdated;
    ShapeKept(st, r, st.mem[i].lun);
    SameSlotAt(st.luns[st.mem[i].lun], r.luns[st.mem[i].lun], Rank(st.mem, i, st.mem[i].lun));
  }

  lemma ShapeKept(st: State, r: State, k: nat)
    requires StateOk(st) && AllUpdated(st, r) && k < |st.luns| && st.luns[k].Lun?
    ensures k < |r.luns| && SameShape(st.luns[k], r.luns[k])
  {
    hide CopySound, InWritten;
  }

  lemma SameSlotAt(l: Lun, l': Lun, k: nat)
    requires SameShape(l, l') && k < MAX_NUM_PARTITIONS
    ensures SlotAt(l', true, k) == SlotAt(l, true, k)
  {
  }

  // ---- exactly when a backup agrees ----

  /**
   * Whoever takes entry i's backup slot has entry i's fields; and if nobody does, or the
   * update does not get through the LUN, the slot holds them already.
   */
  ghost predicate SlotAgrees(st: State, ut: UpdateType, i: nat)
    requires OnDisk(st, i)
  {
    var k := st.mem[i].lun;
    && (forall m: nat :: Passed(st, ut, k) && TakesSlotOf(st, ut, m, i) ==>
          && (ut.guid ==> st.mem[m].typeGuid == st.mem[i].typeGuid)
          && (ut.attributes ==> st.mem[m].attributes == st.mem[i].attributes))
    && (!Passed(st, ut, k) || SlotIsBehind(st, ut, i) ==> EntryAgrees(st, ut, i))
  }

  predicate EntryAgrees(st: State, ut: UpdateType, i: nat)
    requires OnDisk(st, i)
  {
    && (ut.guid ==> BackupGuid(st, i) == st.mem[i].typeGuid)
    && (ut.attributes ==> BackupAttributes(st, i) == st.mem[i].attributes)
  }

  lemma SomeTaker(st: State, ut: UpdateType, i: nat) returns (m: nat)
    requires OnDisk(st, i) && !SlotIsBehind(st, ut, i)
    ensures TakesSlotOf(st, ut, m, i)
  {
    hide Takes, Taken, Data1Zero, Rank, LunOk;
    m := TakerOf(BackupJob(st, ut, st.mem[i].lun), st.count, Rank(st.mem, i, st.mem[i].lun));
  }

  /** Entry i's backup slot agrees with memory after an update exactly under that condition on the state before. */
  lemma EntryAgreesAfter(st: State, p: seq<Place>, ut: UpdateType, i: nat)
    requires Ready(st, p, ut) && !st.device.UnknownDevice? && OnDisk(st, i)
    ensures OnDisk(UpdatePartitionAttributes(st, ut), i)
    ensures EntryAgrees(UpdatePartitionAttributes(st, ut), ut, i) <==> SlotAgrees(st, ut, i)
  {
    hide Ready, UpdatePartitionAttributes, TakesSlotOf, SlotIsBehind, OnDisk, BackupGuid, BackupAttributes, Passed;
    UpdateKeepsTable(st, ut);
    BackupAfter(st, p, ut, i);
    if Passed(st, ut, st.mem[i].lun) && !SlotIsBehind(st, ut, i) {
      var m := SomeTaker(st, ut, i);
    }
  }

  lemma UpdateKeepsTable(st: State, ut: UpdateType)
    requires StateOk(st)
    ensures UpdatePartitionAttributes(st, ut).mem == st.mem && UpdatePartitionAttributes(st, ut).count == st.count
  {
    hide UpdatePartitionAttributes;
  }

  /** The backups agree with memory after an update exactly if that holds of every partition. */
  lemma BackupsAgreeAfter(st: State, p: seq<Place>, ut: UpdateType)
    requires Ready(st, p, ut) && !st.device.UnknownDevice? && StateOk(st)
    ensures BackupAgrees(UpdatePartitionAttributes(st, ut), ut) <==>
      forall i :: 0 <= i < st.count && OnDisk(st, i) ==> SlotAgrees(st, ut, i)
  {
    hide Ready, UpdateLuns, OnDisk, BackupGuid, BackupAttributes, SlotAgrees, LunUpdated, InStep, Completes, LunOk;
    var r := UpdatePartitionAttributes(st, ut);
    UpdateSyncs(st, p, ut);
    forall i: nat | i < st.count
      ensures OnDisk(r, i) <==> OnDisk(st, i)
      ensures OnDisk(st, i) ==> (EntryAgrees(r, ut, i) <==> SlotAgrees(st, ut, i))
    {
      SameOnDisk(st, r, i);
      if OnDisk(st, i) {
        EntryAgreesAfter(st, p, ut, i);
      }
    }
  }

  lemma SameOnDisk(st: State, r: State, i: nat)
    requires StateOk(st) && StateOk(r) && AllUpdated(st, r) && r.mem == st.mem && r.count == st.count
    ensures OnDisk(r, i) <==> OnDisk(st, i)
  {
    hide Data1Zero, CopyKept, InWritten;
  }

  lemma ShapesKept(st: State, r: State)
    requires AllUpdated(st, r)
    ensures forall k :: 0 <= k < |st.luns| ==> (r.luns[k].Lun? <==> st.luns[k].Lun?)
  {
    hide CopyKept, InWritten;
  }

  /** No two entries take the same slot. */
  lemma OneTaker(st: State, ut: UpdateType, m: nat, n: nat, i: nat)
    requires OnDisk(st, i) && TakesSlotOf(st, ut, m, i) && TakesSlotOf(st, ut, n, i)
    ensures m == n
  {
    hide Takes, Taken, Data1Zero, Rank, LunOk;
    var j := BackupJob(st, ut, st.mem[i].lun);
    if m < n {
      TakenMonotone(j, m, n);
    } else if n < m {
      TakenMonotone(j, n, m);
    }
  }

  lemma TakenIsNotBehind(st: State, ut: UpdateType, m: nat, i: nat)
    requires OnDisk(st, i) && TakesSlotOf(st, ut, m, i)
    ensures !SlotIsBehind(st, ut, i)
  {
    hide Takes, Taken, Data1Zero, Rank, LunOk;
    TakenMonotone(BackupJob(st, ut, st.mem[i].lun), m, st.count);
  }

  // ---- a backup that is repaired ----

  /** The backup slot of entry i is the slot of its rank. */
  lemma BackupSlotIs(st: State, i: nat, ut: UpdateType)
    requires OnDisk(st, i)
    ensures var k := st.mem[i].lun;
      var j := BackupJob(st, ut, k);
      j.table + PARTITION_ENTRY_SIZE * Rank(j.mem, i, k) == SlotAt(st.luns[k], true, Rank(st.mem, i, k)) && j.buf == st.luns[k].bytes
  {
  }

  /** Entries that find their own GUID up to entry i take their own slots. */
  lemma TakesOwnSlot(st: State, ut: UpdateType, i: nat)
    requires OnDisk(st, i) && Aligned(BackupJob(st, ut, st.mem[i].lun), i)
    ensures var k := st.mem[i].lun;
      var j := BackupJob(st, ut, k);
      && SlotFor(j, i) == SlotAt(st.luns[k], true, Rank(st.mem, i, k))
      && (Takes(j, i) <==> Passes(ut, BackupGuid(st, i), st.mem[i].typeGuid))
  {
    hide Aligned, GuidAt, Passes, Data1Zero;
    AlignedTakes(BackupJob(st, ut, st.mem[i].lun), i);
  }

  lemma BackupAligned(st: State, ut: UpdateType, k: nat)
    requires StateOk(st) && k < |st.luns| && st.luns[k].Lun? && BackupPasses(st, ut)
    ensures Aligned(BackupJob(st, ut, k), st.count)
  {
    hide Passes, GuidAt, AttributesAt, Data1Zero, LunOk, SlotAt;
    forall i | 0 <= i < st.count
      ensures PassesAtRank(BackupJob(st, ut, k), i)
    {
      if Selected(st.mem[i], k) {
        assert OnDisk(st, i);
        BackupSlotIs(st, i, ut);
      }
    }
  }

  lemma AlignedLess(j: Job, i: nat, n: nat)
    requires JobOk(j) && i <= n <= j.count && Aligned(j, n)
    ensures Aligned(j, i)
  {
  }

  /** Where every backup GUID passes, each entry takes its own slot. */
  lemma OwnSlots(st: State, ut: UpdateType, i: nat)
    requires OnDisk(st, i) && BackupPasses(st, ut)
    ensures TakesSlotOf(st, ut, i, i)
  {
    hide Passes, GuidAt, Data1Zero, Takes, Taken, Aligned, BackupPasses, LunOk;
    BackupAligned(st, ut, st.mem[i].lun);
    AlignedLess(BackupJob(st, ut, st.mem[i].lun), i, st.count);
    TakesOwnSlot(st, ut, i);
    PassesHere(st, ut, i);
  }

  lemma PassesHere(st: State, ut: UpdateType, i: nat)
    requires OnDisk(st, i) && BackupPasses(st, ut)
    ensures Passes(ut, BackupGuid(st, i), st.mem[i].typeGuid)
  {
    hide Passes, GuidAt, Data1Zero, LunOk;
  }

  /** No refused header is in the update's way. */
  ghost predicate Unstopped(st: State, ut: UpdateType)
    requires StateOk(st)
  {
    FirstStop(st, ut, 0) == |st.luns|
  }

  /** An update with something to write writes the fields named to every backup slot, if every backup GUID passes. */
  lemma UpdateWritesBackup(st: State, p: seq<Place>, ut: UpdateType)
    requires Ready(st, p, ut) && !st.device.UnknownDevice? && StateOk(st) && Unstopped(st, ut)
    requires st.mem != st.bak && BackupPasses(st, ut)
    ensures var r := UpdatePartitionAttributes(st, ut); BackupWritten(st, r, ut) && BackupAgrees(r, ut)
  {
    hide Ready, UpdatePartitionAttributes, BackupPasses, TakesSlotOf, SlotIsBehind, BackupGuid, BackupAttributes, LunOk;
    var r := UpdatePartitionAttributes(st, ut);
    forall i | 0 <= i < st.count && OnDisk(st, i)
      ensures OnDisk(r, i)
      ensures BackupGuid(r, i) == if ut.guid then st.mem[i].typeGuid else BackupGuid(st, i)
      ensures BackupAttributes(r, i) == if ut.attributes then st.mem[i].attributes else BackupAttributes(st, i)
    {
      OwnSlots(st, ut, i);
      BackupAfter(st, p, ut, i);
    }
    BackupsAgreeAfter(st, p, ut);
    forall i | 0 <= i < st.count && OnDisk(st, i)
      ensures SlotAgrees(st, ut, i)
    {
      EntryAgreesAfter(st, p, ut, i);
      UpdateKeepsTable(st, ut);
    }
  }

  /** Writing GUIDs repairs the GUIDs of every backup, whatever it held. */
  lemma GuidUpdateRepairs(st: State, p: seq<Place>, ut: UpdateType)
    requires Ready(st, p, ut) && !st.device.UnknownDevice? && StateOk(st) && Unstopped(st, ut) && st.mem != st.bak && ut.guid
    ensures var r := UpdatePartitionAttributes(st, ut); BackupWritten(st, r, ut) && BackupAgrees(r, ut)
  {
    hide Ready, UpdatePartitionAttributes, GuidAt, BackupWritten, BackupAgrees, Data1Zero;
    UpdateWritesBackup(st, p, ut);
  }

  /** Writing attributes repairs the attributes of a backup whose GUIDs are blank or in step. */
  lemma AttributeUpdateRepairs(st: State, p: seq<Place>)
    requires Ready(st, p, PARTITION_ATTRIBUTES) && !st.device.UnknownDevice? && StateOk(st) && Unstopped(st, PARTITION_ATTRIBUTES)
    requires st.mem != st.bak
    requires forall i :: 0 <= i < st.count && OnDisk(st, i) ==>
      Data1Zero(BackupGuid(st, i)) || BackupGuid(st, i) == st.mem[i].typeGuid
    ensures var r := UpdatePartitionAttributes(st, PARTITION_ATTRIBUTES);
      BackupWritten(st, r, PARTITION_ATTRIBUTES) && BackupAgrees(r, PARTITION_ATTRIBUTES)
  {
    hide Ready, UpdatePartitionAttributes, GuidAt, BackupWritten, BackupAgrees, Data1Zero, OnDisk, BackupGuid;
    UpdateWritesBackup(st, p, PARTITION_ATTRIBUTES);
  }

  // ---- a backup with a foreign GUID ----

  /** The entries of n's LUN before entry n find blank GUIDs or their own in the backup. */
  ghost predicate AcceptsBefore(st: State, n: nat) {
    && OnDisk(st, n)
    && forall i :: 0 <= i < n && OnDisk(st, i) && st.mem[i].lun == st.mem[n].lun ==> Accepts(BackupGuid(st, i), st.mem[i].typeGuid)
  }

  /** Entry n is the first of its LUN whose backup slot holds a GUID that is neither blank nor its own, nor a later entry's. */
  ghost predicate FirstForeign(st: State, n: nat) {
    && AcceptsBefore(st, n)
    && !Data1Zero(BackupGuid(st, n))
    && (forall i :: n <= i < st.count && OnDisk(st, i) && st.mem[i].lun == st.mem[n].lun ==> st.mem[i].typeGuid != BackupGuid(st, n))
  }

  /** The entry pointer sticks at a GUID that no entry from n on is allowed to pass. */
  lemma {:induction false} PointerSticks(j: Job, n: nat, i: nat)
    requires JobOk(j) && n <= i <= j.count
    requires forall k :: n <= k < i && Selected(j.mem[k], j.lun) ==> !Passes(j.ut, GuidAt(j.buf, SlotFor(j, n)), j.mem[k].typeGuid)
    ensures SlotFor(j, i) == SlotFor(j, n)
    decreases i
  {
    hide Passes, GuidAt, Selected;
    if n < i {
      PointerSticks(j, n, i - 1);
      assert !Takes(j, i - 1);
      assert Taken(j, i) == Taken(j, i - 1);
    }
  }

  lemma BeforeAligned(st: State, n: nat)
    requires AcceptsBefore(st, n)
    ensures Aligned(BackupJob(st, PARTITION_ATTRIBUTES, st.mem[n].lun), n)
  {
    hide GuidAt, AttributesAt, Data1Zero, LunOk, SlotAt;
    var k := st.mem[n].lun;
    forall i | 0 <= i < n
      ensures PassesAtRank(BackupJob(st, PARTITION_ATTRIBUTES, k), i)
    {
      if Selected(st.mem[i], k) {
        assert OnDisk(st, i);
        BackupSlotIs(st, i, PARTITION_ATTRIBUTES);
      }
    }
  }

  lemma ForeignSticks(st: State, n: nat)
    requires FirstForeign(st, n)
    ensures var k := st.mem[n].lun;
      var j := BackupJob(st, PARTITION_ATTRIBUTES, k);
      SlotFor(j, j.count) == SlotFor(j, n) == SlotAt(st.luns[k], true, Rank(st.mem, n, k))
  {
    var k := st.mem[n].lun;
    var j := BackupJob(st, PARTITION_ATTRIBUTES, k);
    BeforeAligned(st, n);
    TakesOwnSlot(st, PARTITION_ATTRIBUTES, n);
    hide GuidAt, AttributesAt, Data1Zero, LunOk, SlotAt, SlotFor, Aligned;
    forall i | n <= i < j.count && Selected(j.mem[i], j.lun)
      ensures !Passes(j.ut, GuidAt(j.buf, SlotFor(j, n)), j.mem[i].typeGuid)
    {
      assert OnDisk(st, i);
    }
    PointerSticks(j, n, j.count);
  }

  /** An entry before entry n takes its own slot, one from there on none. */
  lemma ForeignTakes(st: State, n: nat, i: nat)
    requires FirstForeign(st, n) && OnDisk(st, i) && st.mem[i].lun == st.mem[n].lun
    ensures if i < n then TakesSlotOf(st, PARTITION_ATTRIBUTES, i, i) else SlotIsBehind(st, PARTITION_ATTRIBUTES, i)
  {
    var k := st.mem[n].lun;
    hide GuidAt, AttributesAt, Data1Zero, LunOk, SlotAt, Takes, Aligned;
    if i < n {
      BeforeAligned(st, n);
      AlignedLess(BackupJob(st, PARTITION_ATTRIBUTES, k), i, n);
      TakesOwnSlot(st, PARTITION_ATTRIBUTES, i);
      BeforePasses(st, n, i);
    } else {
      ForeignSticks(st, n);
      RankMonotone(st.mem, n, i, k);
    }
  }

  lemma BeforePasses(st: State, n: nat, i: nat)
    requires AcceptsBefore(st, n) && i < n && OnDisk(st, i) && st.mem[i].lun == st.mem[n].lun
    ensures Passes(PARTITION_ATTRIBUTES, BackupGuid(st, i), st.mem[i].typeGuid)
  {
    hide GuidAt, Data1Zero, LunOk;
  }

  /**
   * An attribute update that meets a foreign GUID in a backup slot writes the slots before
   * it and misses that slot and all behind it.
   */
  lemma ForeignGuidMisses(st: State, p: seq<Place>, n: nat, i: nat)
    requires Ready(st, p, PARTITION_ATTRIBUTES) && !st.device.UnknownDevice? && FirstForeign(st, n)
    requires Passed(st, PARTITION_ATTRIBUTES, st.mem[n].lun) && OnDisk(st, i) && st.mem[i].lun == st.mem[n].lun
    ensures var r := UpdatePartitionAttributes(st, PARTITION_ATTRIBUTES);
      && OnDisk(r, i) && BackupGuid(r, i) == BackupGuid(st, i)
      && BackupAttributes(r, i) == if i < n then st.mem[i].attributes else BackupAttributes(st, i)
  {
    hide Ready, UpdatePartitionAttributes, FirstForeign, TakesSlotOf, SlotIsBehind, BackupGuid, BackupAttributes, Passed;
    ForeignTakes(st, n, i);
    BackupAfter(st, p, PARTITION_ATTRIBUTES, i);
  }

  lemma ForeignOnDisk(st: State, n: nat)
    requires FirstForeign(st, n)
    ensures OnDisk(st, n)
  {
    hide OnDisk;
  }

  /** The exact condition, entry by entry, behind a foreign GUID. */
  lemma ForeignSlotAgrees(st: State, n: nat, i: nat)
    requires FirstForeign(st, n) && Passed(st, PARTITION_ATTRIBUTES, st.mem[n].lun)
    requires OnDisk(st, i) && st.mem[i].lun == st.mem[n].lun
    ensures SlotAgrees(st, PARTITION_ATTRIBUTES, i) <==> i < n || BackupAttributes(st, i) == st.mem[i].attributes
  {
    hide FirstForeign, TakesSlotOf, SlotIsBehind, OnDisk, BackupGuid, BackupAttributes, Passed;
    ForeignTakes(st, n, i);
    forall m: nat | TakesSlotOf(st, PARTITION_ATTRIBUTES, m, i)
      ensures i < n && m == i
    {
      TakenIsNotBehind(st, PARTITION_ATTRIBUTES, m, i);
      if i < n {
        OneTaker(st, PARTITION_ATTRIBUTES, m, i, i);
      }
    }
    if i < n {
      TakenIsNotBehind(st, PARTITION_ATTRIBUTES, i, i);
    }
  }

  /** So the LUN's backup then agrees in the attributes exactly if the slots missed held them already. */
  lemma ForeignGuidAgrees(st: State, p: seq<Place>, n: nat)
    requires Ready(st, p, PARTITION_ATTRIBUTES) && !st.device.UnknownDevice? && FirstForeign(st, n)
    requires Passed(st, PARTITION_ATTRIBUTES, st.mem[n].lun)
    ensures var r := UpdatePartitionAttributes(st, PARTITION_ATTRIBUTES);
      (forall i :: 0 <= i < st.count && OnDisk(st, i) && st.mem[i].lun == st.mem[n].lun ==>
         OnDisk(r, i) && BackupAttributes(r, i) == st.mem[i].attributes)
      <==> forall i :: n <= i < st.count && OnDisk(st, i) && st.mem[i].lun == st.mem[n].lun ==>
         BackupAttributes(st, i) == st.mem[i].attributes
  {
    hide Ready, UpdatePartitionAttributes, FirstForeign, OnDisk, BackupGuid, BackupAttributes, SlotAgrees, Passed;
    ForeignOnDisk(st, n);
    UpdateKeepsTable(st, PARTITION_ATTRIBUTES);
    var r := UpdatePartitionAttributes(st, PARTITION_ATTRIBUTES);
    forall i | 0 <= i < st.count && OnDisk(st, i) && st.mem[i].lun == st.mem[n].lun
      ensures OnDisk(r, i)
      ensures BackupAttributes(r, i) == st.mem[i].attributes <==> i < n || BackupAttributes(st, i) == st.mem[i].attributes
    {
      EntryAgreesAfter(st, p, PARTITION_ATTRIBUTES, i);
      ForeignSlotAgrees(st, n, i);
    }
  }

  /** The GUID in entry n's backup slot is that of entry m, a later one of the LUN, the first that has it. */
  ghost predicate Displaced(st: State, n: nat, m: nat) {
    && AcceptsBefore(st, n) && n < m && OnDisk(st, m) && st.mem[m].lun == st.mem[n].lun
    && BackupGuid(st, n) == st.mem[m].typeGuid
    && forall i :: n <= i < m && OnDisk(st, i) && st.mem[i].lun == st.mem[n].lun ==> st.mem[i].typeGuid != BackupGuid(st, n)
  }

  lemma DisplacedTakes(st: State, n: nat, m: nat)
    requires Displaced(st, n, m)
    ensures TakesSlotOf(st, PARTITION_ATTRIBUTES, m, n)
  {
    var k := st.mem[n].lun;
    var j := BackupJob(st, PARTITION_ATTRIBUTES, k);
    BeforeAligned(st, n);
    TakesOwnSlot(st, PARTITION_ATTRIBUTES, n);
    hide GuidAt, AttributesAt, Data1Zero, LunOk, SlotAt, SlotFor, Aligned;
    forall i | n <= i < m && Selected(j.mem[i], j.lun)
      ensures !Passes(j.ut, GuidAt(j.buf, SlotFor(j, n)), j.mem[i].typeGuid)
    {
      assert OnDisk(st, i);
    }
    PointerSticks(j, n, m);
  }

  /** An attribute update then writes entry m's attributes into entry n's backup slot. */
  lemma LaterEntryTakes(st: State, p: seq<Place>, n: nat, m: nat)
    requires Ready(st, p, PARTITION_ATTRIBUTES) && !st.device.UnknownDevice? && Displaced(st, n, m)
    requires Passed(st, PARTITION_ATTRIBUTES, st.mem[n].lun)
    ensures var r := UpdatePartitionAttributes(st, PARTITION_ATTRIBUTES);
      && OnDisk(r, n) && BackupGuid(r, n) == BackupGuid(st, n) && BackupAttributes(r, n) == st.mem[m].attributes
      && (SlotAgrees(st, PARTITION_ATTRIBUTES, n) <==> st.mem[m].attributes == st.mem[n].attributes)
  {
    hide Ready, UpdatePartitionAttributes, Displaced, TakesSlotOf, SlotIsBehind, BackupGuid, BackupAttributes, SlotAgrees, Passed;
    DisplacedOnDisk(st, n, m);
    UpdateKeepsTable(st, PARTITION_ATTRIBUTES);
    DisplacedTakes(st, n, m);
    BackupAfter(st, p, PARTITION_ATTRIBUTES, n);
    EntryAgreesAfter(st, p, PARTITION_ATTRIBUTES, n);
  }

  lemma DisplacedOnDisk(st: State, n: nat, m: nat)
    requires Displaced(st, n, m)
    ensures OnDisk(st, n) && OnDisk(st, m)
  {
    hide OnDisk;
  }

  // ---- a backup that agrees goes on agreeing ----

  ghost predicate BackupFollows(st: State, r: State) {
    && (BackupAgrees(st, PARTITION_GUID) ==> BackupAgrees(r, PARTITION_GUID))
    && (BackupAgrees(st, PARTITION_ALL) ==> BackupAgrees(r, PARTITION_ALL))
  }

  /** The place of a partition does not depend on what an update may change. */
  lemma SameBackup(st: State, p: seq<Place>, t: seq<Entry>, i: nat)
    requires Framed(st, p) && Framed(st.(mem := t), p)
    ensures OnDisk(st, i) <==> OnDisk(st.(mem := t), i)
    ensures OnDisk(st, i) ==>
      && BackupGuid(st.(mem := t), i) == BackupGuid(st, i) && BackupAttributes(st.(mem := t), i) == BackupAttributes(st, i)
  {
    hide Data1Zero, DiskOrder, TableFits, Rank, GuidAt, AttributesAt, OnDisk, SlotAt;
    OnDiskIsRecord(st, p, i);
    OnDiskIsRecord(st.(mem := t), p, i);
    if i < |p| && p[i].handle.Record? {
      EntryRank(st, p, i);
      EntryRank(st.(mem := t), p, i);
    }
  }

  lemma AllAgreeInGuids(st: State)
    ensures BackupAgrees(st, PARTITION_ALL) ==> BackupAgrees(st, PARTITION_GUID)
  {
    hide OnDisk, BackupGuid, BackupAttributes, StateOk;
  }

  lemma AgreeingPasses(st: State, p: seq<Place>, t: seq<Entry>, ut: UpdateType)
    requires Framed(st, p) && Framed(st.(mem := t), p) && DiffersOnlyIn(t, st.mem, ut) && BackupAgrees(st, PARTITION_GUID)
    ensures BackupPasses(st.(mem := t), ut)
  {
    hide Framed, OnDisk, BackupGuid, BackupAttributes, Data1Zero;
    FramedOk(st, p);
    FramedOk(st.(mem := t), p);
    forall i | 0 <= i < st.count && OnDisk(st.(mem := t), i)
      ensures Passes(ut, BackupGuid(st.(mem := t), i), t[i].typeGuid)
    {
      SameBackup(st, p, t, i);
    }
  }

  lemma ReadyParts(st: State, p: seq<Place>, t: seq<Entry>, ut: UpdateType)
    requires InStep(st, p) && Ready(st.(mem := t), p, ut)
    ensures Framed(st, p) && Framed(st.(mem := t), p) && DiffersOnlyIn(t, st.mem, ut) && st.mem == st.bak && StateOk(st.(mem := t))
  {
    hide DiskOrder, TableFits, Mirrored, DiffersOnlyIn;
  }

  /** A change of the table followed by the matching update. */
  lemma ChangeFollows(st: State, p: seq<Place>, t: seq<Entry>, ut: UpdateType)
    requires InStep(st, p) && !st.device.UnknownDevice? && Ready(st.(mem := t), p, ut)
    requires StateOk(st.(mem := t)) && Unstopped(st.(mem := t), ut)
    ensures BackupFollows(st, UpdatePartitionAttributes(st.(mem := t), ut))
  {
    hide Ready, InStep, UpdateLuns, Framed, BackupAgrees, BackupPasses, BackupWritten, DiffersOnlyIn, LunOk, LunUpdated;
    var st1 := st.(mem := t);
    var r := UpdatePartitionAttributes(st1, ut);
    ReadyParts(st, p, t, ut);
    AllAgreeInGuids(st);
    if t == st.mem {
      assert st1 == st;
    } else if BackupAgrees(st, PARTITION_GUID) {
      AgreeingPasses(st, p, t, ut);
      UpdateWritesBackup(st1, p, ut);
      UpdateSyncs(st1, p, ut);
      ShapesKept(st1, r);
      AgreesAfter(st, p, t, ut, r, PARTITION_GUID);
      if BackupAgrees(st, PARTITION_ALL) {
        AgreesAfter(st, p, t, ut, r, PARTITION_ALL);
      }
    }
  }

  lemma AgreesAfter(st: State, p: seq<Place>, t: seq<Entry>, ut: UpdateType, r: State, which: UpdateType)
    requires Framed(st, p) && Framed(st.(mem := t), p) && DiffersOnlyIn(t, st.mem, ut) && BackupAgrees(st, which)
    requires StateOk(r) && r.mem == t && r.count == st.count && BackupWritten(st.(mem := t), r, ut)
    requires forall k :: 0 <= k < |st.luns| && k < |r.luns| ==> (r.luns[k].Lun? <==> st.luns[k].Lun?)
    requires |r.luns| == |st.luns|
    ensures BackupAgrees(r, which)
  {
    hide Framed, GuidAt, AttributesAt, Rank, SlotAt, Data1Zero, LunOk, BackupGuid, BackupAttributes;
    forall i | 0 <= i < r.count && OnDisk(r, i)
      ensures which.guid ==> BackupGuid(r, i) == t[i].typeGuid
      ensures which.attributes ==> BackupAttributes(r, i) == t[i].attributes
    {
      FramedOk(st, p);
      FramedOk(st.(mem := t), p);
      assert OnDisk(st.(mem := t), i);
      SameBackup(st, p, t, i);
    }
  }

  lemma FramedOk(st: State, p: seq<Place>)
    requires Framed(st, p)
    ensures StateOk(st)
  {
  }
}
