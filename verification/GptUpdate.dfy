/**
 * What one pass of UpdatePartitionAttributes over a GPT copy does to the bytes and to
 * the shadow table (PartitionTableUpdate.c, lines 268-416).
 */
module GptUpdate {
  import opened Crc32Spec
  import opened GptFormat
  import opened SlotTypes
  import opened SlotSpec

  // ---- which entries belong to a LUN, and where they lie ----

  predicate Selected(e: Entry, lun: nat) {
    !Data1Zero(e.typeGuid) && e.lun == lun
  }

  /** How many of the first n entries belong to the LUN: the slot number of entry n if it does. */
  function Rank(mem: seq<Entry>, n: nat, lun: nat): (r: nat)
    requires n <= |mem|
    ensures r <= n
  {
    if n == 0 then 0 else Rank(mem, n - 1, lun) + (if Selected(mem[n - 1], lun) then 1 else 0)
  }

  lemma {:induction false} RankMonotone(mem: seq<Entry>, i: nat, j: nat, lun: nat)
    requires i <= j <= |mem|
    ensures Rank(mem, i, lun) <= Rank(mem, j, lun)
    ensures i < j && Selected(mem[i], lun) ==> Rank(mem, i, lun) < Rank(mem, j, lun)
    decreases j
  {
    if i < j {
      RankMonotone(mem, i, j - 1, lun);
    }
  }

  /** The table lists the LUNs in ascending order; an eMMC device has the one LUN only. */
  ghost predicate Ordered(mem: seq<Entry>, count: nat, lun: nat, device: Device)
    requires count <= |mem|
  {
    && (forall i, j :: 0 <= i < j < count && !Data1Zero(mem[i].typeGuid) && !Data1Zero(mem[j].typeGuid) ==> mem[i].lun <= mem[j].lun)
    && (!device.Ufs? ==> forall i :: 0 <= i < count && !Data1Zero(mem[i].typeGuid) ==> mem[i].lun == lun)
  }

  // ---- which slot an entry is written to ----

  /** The input of a scan: the table in memory, the LUN, what to write, and the bytes with the place of the entry array. */
  datatype Job = Job(mem: seq<Entry>, count: nat, lun: nat, ut: UpdateType, buf: seq<Byte>, table: nat)

  predicate JobOk(j: Job) {
    j.count <= |j.mem| == MAX_NUM_PARTITIONS && j.table + PARTITION_ENTRY_SIZE * j.count <= |j.buf|
  }

  /** A stored GUID that attribute mode accepts for an entry. */
  predicate Accepts(stored: Guid, g: Guid) {
    Data1Zero(stored) || stored == g
  }

  /** The pointer moves on: always when GUIDs are written, otherwise behind an accepted GUID. */
  predicate Passes(ut: UpdateType, stored: Guid, g: Guid) {
    ut.guid || !ut.attributes || Accepts(stored, g)
  }

  /** How many slots the first n entries have taken. */
  function Taken(j: Job, n: nat): (r: nat)
    requires JobOk(j) && n <= j.count
    ensures r <= n
    decreases n, 0
  {
    if n == 0 then 0 else Taken(j, n - 1) + (if Takes(j, n - 1) then 1 else 0)
  }

  /** Where entry i is tried. */
  function SlotFor(j: Job, i: nat): (at: nat)
    requires JobOk(j) && i <= j.count
    ensures j.table <= at <= j.table + PARTITION_ENTRY_SIZE * i
    decreases i, 1
  {
    j.table + PARTITION_ENTRY_SIZE * Taken(j, i)
  }

  /** Entry i belongs to the LUN and takes the slot at which it is tried. */
  predicate Takes(j: Job, i: nat)
    requires JobOk(j) && i < j.count
    decreases i, 2
  {
    Selected(j.mem[i], j.lun) && Passes(j.ut, GuidAt(j.buf, SlotFor(j, i)), j.mem[i].typeGuid)
  }

  /** Entry i, if it belongs to the LUN, finds an acceptable GUID at the slot of its rank. */
  predicate PassesAtRank(j: Job, i: nat)
    requires JobOk(j) && i < j.count
  {
    Selected(j.mem[i], j.lun) ==>
      Passes(j.ut, GuidAt(j.buf, j.table + PARTITION_ENTRY_SIZE * Rank(j.mem, i, j.lun)), j.mem[i].typeGuid)
  }

  ghost predicate Aligned(j: Job, n: nat)
    requires JobOk(j) && n <= j.count
  {
    forall i :: 0 <= i < n ==> PassesAtRank(j, i)
  }

  /** Entries that all do take these slots. */
  lemma {:induction false} AlignedTakes(j: Job, n: nat)
    requires JobOk(j) && n <= j.count && Aligned(j, n)
    ensures forall i :: 0 <= i <= n ==> Taken(j, i) == Rank(j.mem, i, j.lun)
    ensures forall i :: 0 <= i < n ==> (Takes(j, i) <==> Selected(j.mem[i], j.lun))
  {
    hide Passes, GuidAt, Selected;
    if n > 0 {
      AlignedTakes(j, n - 1);
      assert PassesAtRank(j, n - 1);
      assert SlotFor(j, n - 1) == j.table + PARTITION_ENTRY_SIZE * Taken(j, n - 1);
      assert Takes(j, n - 1) <==> Selected(j.mem[n - 1], j.lun);
      assert Taken(j, n) == Taken(j, n - 1) + (if Takes(j, n - 1) then 1 else 0);
      assert Rank(j.mem, n, j.lun) == Rank(j.mem, n - 1, j.lun) + (if Selected(j.mem[n - 1], j.lun) then 1 else 0);
    }
  }

  lemma {:induction false} TakenMonotone(j: Job, m: nat, n: nat)
    requires JobOk(j) && m <= n <= j.count
    ensures Taken(j, m) <= Taken(j, n)
    ensures m < n && Takes(j, m) ==> Taken(j, m) < Taken(j, n)
    decreases n
  {
    hide Takes;
    if m < n {
      TakenMonotone(j, m, n - 1);
    }
  }

  /** A byte position, counted from the table's start, that holds part of a type GUID or of an attribute word. */
  predicate InField(d: int) {
    0 <= d < MAX_PARTITION_ENTRIES_SZ && (d % PARTITION_ENTRY_SIZE < 16 || 48 <= d % PARTITION_ENTRY_SIZE < 56)
  }

  /** A shadow entry after the slot (g, a) has been compared with e. */
  function Shadowed(b: Entry, e: Entry, g: Guid, a: bv64, ut: UpdateType): Entry {
    b.(typeGuid := if ut.guid && g != e.typeGuid then e.typeGuid else b.typeGuid,
       attributes := if ut.attributes && a != e.attributes then e.attributes else b.attributes)
  }

  predicate Differs(e: Entry, g: Guid, a: bv64, ut: UpdateType) {
    (ut.guid && g != e.typeGuid) || (ut.attributes && a != e.attributes)
  }

  /** Entry k takes a slot and has something to write into it. */
  predicate Writes(j: Job, k: nat)
    requires JobOk(j) && k < j.count
  {
    var at := SlotFor(j, k);
    Takes(j, k) && Differs(j.mem[k], GuidAt(j.buf, at), AttributesAt(j.buf, at), j.ut)
  }

  /** The copy needs rewriting. */
  ghost predicate Dirty(j: Job)
    requires JobOk(j)
  {
    exists k :: 0 <= k < j.count && Writes(j, k)
  }

  // ---- one entry ----

  /** Equal bytes give equal fields. */
  lemma SameSlot(b: seq<Byte>, c: seq<Byte>, at: nat)
    requires at + PARTITION_ENTRY_SIZE <= |b| && |b| == |c|
    requires forall x :: at <= x < at + 56 && !(at + 16 <= x < at + 48) ==> b[x] == c[x]
    ensures GuidAt(b, at) == GuidAt(c, at) && AttributesAt(b, at) == AttributesAt(c, at)
  {
    hide GetLe64;
    SameField64(b, c, at + ATTRIBUTE_FLAG_OFFSET);
  }

  /** What ScanGuid does. */
  lemma ScanGuidEffect(e: Entry, i: nat, s: Scan)
    requires Room(s, 1) && i < MAX_NUM_PARTITIONS
    ensures var r := ScanGuid(e, i, s);
      && GuidAt(r.buf, s.ptr) == e.typeGuid && AttributesAt(r.buf, s.ptr) == AttributesAt(s.buf, s.ptr)
      && |r.buf| == |s.buf| && r.ptr == s.ptr
      && (forall x :: 0 <= x < |s.buf| && !(s.ptr <= x < s.ptr + 16) ==> r.buf[x] == s.buf[x])
      && r.bak == s.bak[i := Shadowed(s.bak[i], e, GuidAt(s.buf, s.ptr), 0, UpdateType(false, true))]
      && r.skip == (s.skip && GuidAt(s.buf, s.ptr) == e.typeGuid)
  {
    hide GetLe64;
    var r := ScanGuid(e, i, s);
    SameField64(s.buf, r.buf, s.ptr + ATTRIBUTE_FLAG_OFFSET);
  }

  /** What ScanAttributes does. */
  lemma ScanAttributesEffect(e: Entry, i: nat, s: Scan)
    requires Room(s, 1) && i < MAX_NUM_PARTITIONS
    ensures var r := ScanAttributes(e, i, s);
      && GuidAt(r.buf, s.ptr) == GuidAt(s.buf, s.ptr) && AttributesAt(r.buf, s.ptr) == e.attributes
      && |r.buf| == |s.buf| && r.ptr == s.ptr
      && (forall x :: 0 <= x < |s.buf| && !(s.ptr + 48 <= x < s.ptr + 56) ==> r.buf[x] == s.buf[x])
      && r.bak == s.bak[i := Shadowed(s.bak[i], e, NO_GUID, AttributesAt(s.buf, s.ptr), UpdateType(true, false))]
      && r.skip == (s.skip && AttributesAt(s.buf, s.ptr) == e.attributes)
  {
    hide GetLe64, Le64;
    PutReads(s.buf, s.ptr + ATTRIBUTE_FLAG_OFFSET, Le64(e.attributes));
    if AttributesAt(s.buf, s.ptr) != e.attributes {
      StoredLe64(ScanAttributes(e, i, s).buf, s.ptr + ATTRIBUTE_FLAG_OFFSET, e.attributes);
    }
  }

  /** What the body of the entry loop does when the slot is taken. */
  lemma ScanEntryEffect(e: Entry, i: nat, ut: UpdateType, s: Scan)
    requires Room(s, 1) && i < MAX_NUM_PARTITIONS
    requires Passes(ut, GuidAt(s.buf, s.ptr), e.typeGuid)
    ensures var r := ScanEntry(e, i, ut, s);
      && r.ptr == s.ptr + PARTITION_ENTRY_SIZE && |r.buf| == |s.buf|
      && GuidAt(r.buf, s.ptr) == (if ut.guid then e.typeGuid else GuidAt(s.buf, s.ptr))
      && AttributesAt(r.buf, s.ptr) == (if ut.attributes then e.attributes else AttributesAt(s.buf, s.ptr))
      && (forall x :: 0 <= x < |s.buf| && !(s.ptr <= x < s.ptr + 16) && !(s.ptr + 48 <= x < s.ptr + 56) ==> r.buf[x] == s.buf[x])
      && r.bak == s.bak[i := Shadowed(s.bak[i], e, GuidAt(s.buf, s.ptr), AttributesAt(s.buf, s.ptr), ut)]
      && r.skip == (s.skip && !Differs(e, GuidAt(s.buf, s.ptr), AttributesAt(s.buf, s.ptr), ut))
  {
    hide GetLe64, ScanGuid, ScanAttributes, Data1Zero, GuidAt, AttributesAt;
    var s1 := s;
    if ut.guid {
      ScanGuidEffect(e, i, s);
      s1 := ScanGuid(e, i, s);
    }
    if ut.attributes {
      ScanAttributesEffect(e, i, s1);
    }
  }

  /** Otherwise it does nothing, and the pointer stays. */
  lemma ScanEntryStays(e: Entry, i: nat, ut: UpdateType, s: Scan)
    requires Room(s, 1) && i < MAX_NUM_PARTITIONS
    requires !Passes(ut, GuidAt(s.buf, s.ptr), e.typeGuid)
    ensures ScanEntry(e, i, ut, s) == s
  {
    hide Data1Zero, GuidAt;
  }

  // ---- the whole table ----

  /** What a scan from entry i on leaves behind: which entry's fields now stand in which slot. */
  ghost predicate Scanned(j: Job, i: nat, s: Scan, r: Scan)
    requires JobOk(j) && i <= j.count
    requires |s.buf| == |r.buf| == |j.buf| && |s.bak| == |r.bak| == MAX_NUM_PARTITIONS
  {
    && (forall k :: i <= k < j.count && Takes(j, k) ==>
         var at := SlotFor(j, k);
         && GuidAt(r.buf, at) == (if j.ut.guid then j.mem[k].typeGuid else GuidAt(j.buf, at))
         && AttributesAt(r.buf, at) == (if j.ut.attributes then j.mem[k].attributes else AttributesAt(j.buf, at))
         && r.bak[k] == Shadowed(s.bak[k], j.mem[k], GuidAt(j.buf, at), AttributesAt(j.buf, at), j.ut))
    && (forall k :: 0 <= k < MAX_NUM_PARTITIONS && !(i <= k < j.count && Takes(j, k)) ==> r.bak[k] == s.bak[k])
    && (forall x :: 0 <= x < |s.buf| && (x < SlotFor(j, i) || SlotFor(j, j.count) <= x || !InField(x - j.table)) ==> r.buf[x] == s.buf[x])
    && (r.skip <==> s.skip && forall k :: i <= k < j.count && Takes(j, k) ==>
         !Differs(j.mem[k], GuidAt(j.buf, SlotFor(j, k)), AttributesAt(j.buf, SlotFor(j, k)), j.ut))
    && (r.skip ==> r.buf == s.buf)
  }

  /** The bytes from the pointer on are still the ones the scan was given. */
  ghost predicate Reaches(j: Job, i: nat, s: Scan)
    requires JobOk(j) && i <= j.count
  {
    && |s.buf| == |j.buf| && |s.bak| == MAX_NUM_PARTITIONS && s.ptr == SlotFor(j, i)
    && forall x :: s.ptr <= x < |j.buf| ==> s.buf[x] == j.buf[x]
  }

  lemma ReachesRoom(j: Job, i: nat, s: Scan)
    requires JobOk(j) && i <= j.count && Reaches(j, i, s)
    ensures Room(s, j.count - i) && |s.buf| == |j.buf| && s.ptr == SlotFor(j, i)
    ensures i < j.count ==> GuidAt(s.buf, s.ptr) == GuidAt(j.buf, s.ptr) && AttributesAt(s.buf, s.ptr) == AttributesAt(j.buf, s.ptr)
    ensures i < j.count && Takes(j, i) ==> Passes(j.ut, GuidAt(s.buf, s.ptr), j.mem[i].typeGuid)
  {
    hide GetLe64, Passes, Data1Zero;
    if i < j.count {
      SameSlot(s.buf, j.buf, s.ptr);
    }
  }

  lemma ScannedNothing(j: Job, i: nat, s: Scan)
    requires JobOk(j) && i <= j.count && |s.buf| == |j.buf| && |s.bak| == MAX_NUM_PARTITIONS
    requires forall k :: i <= k < j.count ==> !Selected(j.mem[k], j.lun)
    ensures Scanned(j, i, s, s)
  {
    hide GuidAt, AttributesAt;
  }

  lemma SlotStays(j: Job, i: nat)
    requires JobOk(j) && i < j.count && !Takes(j, i)
    ensures SlotFor(j, i + 1) == SlotFor(j, i)
  {
    hide Passes, GuidAt, Selected;
    assert Taken(j, i + 1) == Taken(j, i);
  }

  lemma ScannedSkip(j: Job, i: nat, s: Scan, r: Scan)
    requires JobOk(j) && i < j.count && |s.buf| == |r.buf| == |j.buf| && |s.bak| == |r.bak| == MAX_NUM_PARTITIONS
    requires !Takes(j, i) && Scanned(j, i + 1, s, r)
    ensures Scanned(j, i, s, r)
  {
    hide Takes, Taken, SlotFor, GuidAt, AttributesAt, Differs, Shadowed, InField;
    SlotStays(j, i);
    forall k | 0 <= k < MAX_NUM_PARTITIONS && !(i <= k < j.count && Takes(j, k))
      ensures r.bak[k] == s.bak[k]
    {
      assert !(i + 1 <= k < j.count && Takes(j, k));
    }
  }

  /** A later slot lies behind an earlier one. */
  lemma SlotsApart(j: Job, i: nat, k: nat)
    requires JobOk(j) && i < k <= j.count && Takes(j, i)
    ensures SlotFor(j, i) + PARTITION_ENTRY_SIZE <= SlotFor(j, k)
  {
    hide Takes, Taken;
    TakenMonotone(j, i, k);
  }

  /** Bytes before slot i, behind the last slot taken or outside every field, stay. */
  lemma ScannedFrame(j: Job, i: nat, s: Scan, m: Scan, r: Scan)
    requires JobOk(j) && i < j.count && |s.buf| == |m.buf| == |r.buf| == |j.buf|
    requires Takes(j, i) && s.ptr == SlotFor(j, i)
    requires forall x :: 0 <= x < |s.buf| && !(s.ptr <= x < s.ptr + 16) && !(s.ptr + 48 <= x < s.ptr + 56) ==> m.buf[x] == s.buf[x]
    requires forall x :: 0 <= x < |s.buf| && (x < SlotFor(j, i + 1) || SlotFor(j, j.count) <= x || !InField(x - j.table)) ==> r.buf[x] == m.buf[x]
    ensures forall x :: 0 <= x < |s.buf| && (x < SlotFor(j, i) || SlotFor(j, j.count) <= x || !InField(x - j.table)) ==> r.buf[x] == s.buf[x]
    ensures forall x :: s.ptr <= x < s.ptr + PARTITION_ENTRY_SIZE && x < |s.buf| ==> r.buf[x] == m.buf[x]
  {
    SlotsApart(j, i, i + 1);
    SlotsApart(j, i, j.count);
    var rank := Taken(j, i);
    assert s.ptr == j.table + PARTITION_ENTRY_SIZE * rank;
    hide InField, Takes, Taken, SlotFor;
    forall x | 0 <= x < |s.buf| && (x < s.ptr || SlotFor(j, j.count) <= x || !InField(x - j.table))
      ensures r.buf[x] == s.buf[x]
    {
      FieldOfSlot(x - j.table, rank);
    }
  }

  /** What the step for an entry that takes its slot leaves, in terms of the copy. */
  ghost predicate Stepped(j: Job, i: nat, s: Scan, m: Scan)
    requires JobOk(j) && i < j.count && |s.buf| == |m.buf| == |j.buf| && |s.bak| == |m.bak| == MAX_NUM_PARTITIONS
  {
    var at := SlotFor(j, i);
    && GuidAt(m.buf, at) == (if j.ut.guid then j.mem[i].typeGuid else GuidAt(j.buf, at))
    && AttributesAt(m.buf, at) == (if j.ut.attributes then j.mem[i].attributes else AttributesAt(j.buf, at))
    && (forall x :: 0 <= x < |s.buf| && !(at <= x < at + 16) && !(at + 48 <= x < at + 56) ==> m.buf[x] == s.buf[x])
    && m.bak == s.bak[i := Shadowed(s.bak[i], j.mem[i], GuidAt(j.buf, at), AttributesAt(j.buf, at), j.ut)]
    && m.skip == (s.skip && !Differs(j.mem[i], GuidAt(j.buf, at), AttributesAt(j.buf, at), j.ut))
    && (m.skip ==> m.buf == s.buf)
  }

  lemma EntryStepped(j: Job, i: nat, s: Scan)
    requires JobOk(j) && i < j.count && Reaches(j, i, s) && Takes(j, i) && Room(s, 1)
    ensures Stepped(j, i, s, ScanEntry(j.mem[i], i, j.ut, s)) && s.ptr == SlotFor(j, i)
  {
    ReachesRoom(j, i, s);
    hide ScanEntry, GetLe64, Data1Zero, GuidAt, AttributesAt, InField, Shadowed, SlotFor, Taken, Takes, Differs, Passes, Reaches;
    ScanEntryEffect(j.mem[i], i, j.ut, s);
    if ScanEntry(j.mem[i], i, j.ut, s).skip {
      UnchangedEntry(j.mem[i], i, j.ut, s);
    }
  }

  lemma ScannedEntry(j: Job, i: nat, s: Scan, m: Scan, r: Scan)
    requires JobOk(j) && i < j.count && |s.buf| == |r.buf| == |m.buf| == |j.buf| && |s.bak| == |r.bak| == |m.bak| == MAX_NUM_PARTITIONS
    requires Takes(j, i) && Stepped(j, i, s, m) && s.ptr == SlotFor(j, i) && Scanned(j, i + 1, m, r)
    ensures Scanned(j, i, s, r)
  {
    hide GetLe64, Data1Zero, GuidAt, AttributesAt, InField, Shadowed, SlotFor, Taken, Takes, Differs, Passes, Scanned;
    ScannedRest(j, i + 1, m, r);
    ScannedFrame(j, i, s, m, r);
    SameSlot(r.buf, m.buf, s.ptr);
    SkipsBack(j, i, s, m, r);
    ScannedParts(j, i, s, m, r);
  }

  lemma SkipsBack(j: Job, i: nat, s: Scan, m: Scan, r: Scan)
    requires JobOk(j) && i < j.count && |s.buf| == |r.buf| == |m.buf| == |j.buf| && |s.bak| == |r.bak| == |m.bak| == MAX_NUM_PARTITIONS
    requires Stepped(j, i, s, m) && Scanned(j, i + 1, m, r)
    ensures r.skip ==> m.skip && m.buf == s.buf
  {
    hide GuidAt, AttributesAt, InField, Shadowed, SlotFor, Takes, Differs;
  }

  /** What a scan leaves untouched. */
  lemma ScannedRest(j: Job, i: nat, s: Scan, r: Scan)
    requires JobOk(j) && i <= j.count && |s.buf| == |r.buf| == |j.buf| && |s.bak| == |r.bak| == MAX_NUM_PARTITIONS
    requires Scanned(j, i, s, r)
    ensures forall x :: 0 <= x < |s.buf| && (x < SlotFor(j, i) || SlotFor(j, j.count) <= x || !InField(x - j.table)) ==> r.buf[x] == s.buf[x]
    ensures r.skip ==> r.buf == s.buf
  {
  }

  /** What the later entries have got, seen from entry i. */
  lemma ScannedParts(j: Job, i: nat, s: Scan, m: Scan, r: Scan)
    requires JobOk(j) && i < j.count && |s.buf| == |r.buf| == |m.buf| == |j.buf| && |s.bak| == |r.bak| == |m.bak| == MAX_NUM_PARTITIONS
    requires Takes(j, i) && Scanned(j, i + 1, m, r)
    requires var at := SlotFor(j, i);
      && GuidAt(r.buf, at) == (if j.ut.guid then j.mem[i].typeGuid else GuidAt(j.buf, at))
      && AttributesAt(r.buf, at) == (if j.ut.attributes then j.mem[i].attributes else AttributesAt(j.buf, at))
      && m.bak == s.bak[i := Shadowed(s.bak[i], j.mem[i], GuidAt(j.buf, at), AttributesAt(j.buf, at), j.ut)]
      && m.skip == (s.skip && !Differs(j.mem[i], GuidAt(j.buf, at), AttributesAt(j.buf, at), j.ut))
    requires forall x :: 0 <= x < |s.buf| && (x < SlotFor(j, i) || SlotFor(j, j.count) <= x || !InField(x - j.table)) ==> r.buf[x] == s.buf[x]
    requires r.skip ==> m.buf == s.buf
    ensures Scanned(j, i, s, r)
  {
    hide GuidAt, AttributesAt, InField, Shadowed, SlotFor, Taken, Takes, Differs, Passes;
  }

  lemma FieldOfSlot(d: int, k: nat)
    requires k < MAX_NUM_PARTITIONS
    ensures 128 * k <= d < 128 * k + 16 || 128 * k + 48 <= d < 128 * k + 56 ==> InField(d)
  {
  }

  lemma UnchangedEntry(e: Entry, i: nat, ut: UpdateType, s: Scan)
    requires Room(s, 1) && i < MAX_NUM_PARTITIONS
    requires !Differs(e, GuidAt(s.buf, s.ptr), AttributesAt(s.buf, s.ptr), ut)
    ensures ScanEntry(e, i, ut, s).buf == s.buf
  {
  }

  lemma ReachesNext(j: Job, i: nat, s: Scan)
    requires JobOk(j) && i < j.count && Reaches(j, i, s) && Takes(j, i) && Room(s, 1)
    ensures Reaches(j, i + 1, ScanEntry(j.mem[i], i, j.ut, s))
  {
    ReachesRoom(j, i, s);
    assert SlotFor(j, i + 1) == SlotFor(j, i) + PARTITION_ENTRY_SIZE;
    hide ScanEntry, GetLe64, Data1Zero, GuidAt, AttributesAt, Shadowed, SlotFor, Taken, Differs, Passes;
    ScanEntryEffect(j.mem[i], i, j.ut, s);
  }

  /** Whatever GUIDs the copy holds, the scan writes the fields of each entry into the slot that the entry takes, and no others. */
  lemma {:induction false} ScanCorrect(j: Job, i: nat, device: Device, s: Scan)
    requires JobOk(j) && i <= j.count && Reaches(j, i, s)
    requires Ordered(j.mem, j.count, j.lun, device)
    ensures Room(s, j.count - i)
    ensures Scanned(j, i, s, ScanFrom(j.mem, j.count, i, j.lun, device, j.ut, s))
    decreases j.count - i
  {
    hide ScanEntry, GetLe64, Data1Zero, Scanned, Passes, GuidAt, AttributesAt, Reaches, Stepped;
    ReachesRoom(j, i, s);
    if i == j.count {
      ScannedNothing(j, i, s);
    } else if !Selected(j.mem[i], j.lun) {
      if !Data1Zero(j.mem[i].typeGuid) && device.Ufs? && j.mem[i].lun > j.lun {
        ScannedNothing(j, i, s);
      } else {
        StaysAt(j, i, s);
        ScanCorrect(j, i + 1, device, s);
        ScannedSkip(j, i, s, ScanFrom(j.mem, j.count, i + 1, j.lun, device, j.ut, s));
      }
    } else if !Takes(j, i) {
      StaysAt(j, i, s);
      ScanEntryStays(j.mem[i], i, j.ut, s);
      ScanCorrect(j, i + 1, device, s);
      ScannedSkip(j, i, s, ScanFrom(j.mem, j.count, i + 1, j.lun, device, j.ut, s));
    } else {
      ReachesNext(j, i, s);
      var m := ScanEntry(j.mem[i], i, j.ut, s);
      ScanCorrect(j, i + 1, device, m);
      EntryStepped(j, i, s);
      ScannedEntry(j, i, s, m, ScanFrom(j.mem, j.count, i + 1, j.lun, device, j.ut, m));
    }
  }

  /** The scan from the start of the table. */
  lemma WholeScan(j: Job, device: Device, bak: seq<Entry>)
    requires JobOk(j) && Ordered(j.mem, j.count, j.lun, device) && |bak| == MAX_NUM_PARTITIONS
    ensures var s := Scan(j.buf, j.table, bak, true);
      Room(s, j.count) &&
      var r := ScanFrom(j.mem, j.count, 0, j.lun, device, j.ut, s);
      && Scanned(j, 0, s, r)
      && (forall x :: 0 <= x < |j.buf| && !InField(x - j.table) ==> r.buf[x] == j.buf[x])
      && (r.skip <==> !Dirty(j))
  {
    hide ScanFrom, Scanned, InField, Dirty;
    var s := Scan(j.buf, j.table, bak, true);
    ScanCorrect(j, 0, device, s);
    ScannedFacts(j, s, ScanFrom(j.mem, j.count, 0, j.lun, device, j.ut, s));
  }

  lemma ScannedFacts(j: Job, s: Scan, r: Scan)
    requires JobOk(j) && |s.buf| == |r.buf| == |j.buf| && |s.bak| == |r.bak| == MAX_NUM_PARTITIONS
    requires Scanned(j, 0, s, r)
    ensures forall x :: 0 <= x < |s.buf| && !InField(x - j.table) ==> r.buf[x] == s.buf[x]
    ensures s.skip ==> (r.skip <==> !Dirty(j))
  {
    hide GuidAt, AttributesAt, Differs, Takes, SlotFor, Shadowed, InField;
    if s.skip && !r.skip {
      var k :| 0 <= k < j.count && Takes(j, k)
        && Differs(j.mem[k], GuidAt(j.buf, SlotFor(j, k)), AttributesAt(j.buf, SlotFor(j, k)), j.ut);
      assert Writes(j, k);
    }
  }

  /** Every slot before the last one taken has been taken by some entry. */
  lemma {:induction false} TakerOf(j: Job, n: nat, m: nat) returns (i: nat)
    requires JobOk(j) && n <= j.count && m < Taken(j, n)
    ensures i < n && Takes(j, i) && Taken(j, i) == m
  {
    hide Passes, GuidAt, Selected;
    if Takes(j, n - 1) && Taken(j, n - 1) == m {
      i := n - 1;
    } else {
      i := TakerOf(j, n - 1, m);
    }
  }

  /** Scans of the same table over the same entry array go the same way. */
  lemma {:induction false} SameJob(j: Job, j': Job, n: nat)
    requires JobOk(j) && JobOk(j') && j' == j.(buf := j'.buf) && n <= j.count <= MAX_NUM_PARTITIONS
    requires j.table + MAX_PARTITION_ENTRIES_SZ <= |j.buf| == |j'.buf|
    requires forall x :: j.table <= x < j.table + MAX_PARTITION_ENTRIES_SZ ==> j'.buf[x] == j.buf[x]
    ensures SlotFor(j', n) == SlotFor(j, n) && Taken(j', n) == Taken(j, n)
    ensures n < j.count ==>
      && (Takes(j', n) <==> Takes(j, n))
      && GuidAt(j'.buf, SlotFor(j', n)) == GuidAt(j.buf, SlotFor(j, n))
      && AttributesAt(j'.buf, SlotFor(j', n)) == AttributesAt(j.buf, SlotFor(j, n))
      && (Writes(j', n) <==> Writes(j, n))
  {
    hide GuidAt, AttributesAt, Selected, Passes, Differs;
    if n > 0 {
      SameJob(j, j', n - 1);
    }
    if n < j.count {
      SameSlot(j.buf, j'.buf, SlotFor(j, n));
    }
  }

  lemma SameDirty(j: Job, j': Job)
    requires JobOk(j) && JobOk(j') && j' == j.(buf := j'.buf) && j.count <= MAX_NUM_PARTITIONS
    requires j.table + MAX_PARTITION_ENTRIES_SZ <= |j.buf| == |j'.buf|
    requires forall x :: j.table <= x < j.table + MAX_PARTITION_ENTRIES_SZ ==> j'.buf[x] == j.buf[x]
    ensures Dirty(j') <==> Dirty(j)
  {
    hide Writes;
    forall k | 0 <= k < j.count
      ensures Writes(j', k) <==> Writes(j, k)
    {
      SameJob(j, j', k);
    }
  }

  lemma StaysAt(j: Job, i: nat, s: Scan)
    requires JobOk(j) && i < j.count && Reaches(j, i, s) && !Takes(j, i)
    ensures Reaches(j, i + 1, s)
  {
    assert Taken(j, i + 1) == Taken(j, i);
    assert SlotFor(j, i + 1) == SlotFor(j, i);
    hide Takes, Taken, SlotFor;
  }
}
