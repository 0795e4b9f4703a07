/**
 * What every slot operation keeps: memory, shadow and disk in step, and the table's
 * identity (PartitionTableUpdate.c, lines 428-592 and 744-976).
 */
module SlotInvariant {
  import opened SlotTypes
  import opened SlotSpec
  import opened SlotBits
  import opened CopyUpdate
  import opened GptSync
  import opened GptUpdate
  import opened GptBackup
  import opened SlotSwap

  /** Every handle is a partition's; none stands for a LUN itself. */
  ghost predicate NoBlanks(p: seq<Place>) {
    forall i :: 0 <= i < |p| ==> p[i].handle.Record?
  }

  /** What fits the suffix field of a slot, which holds two characters; the empty suffix where no table entry is blank. */
  ghost predicate SuffixLegal(s: Str16, p: seq<Place>) {
    |s| <= 2 && (s == [] ==> NoBlanks(p))
  }

  // ---- steps on the table ----

  /** Only attribute words differ, only in bits 48 to 55, and no blank entry does. */
  ghost predicate SlotBitsOnly(mem: seq<Entry>, t: seq<Entry>) {
    && |mem| == |t|
    && forall i :: 0 <= i < |mem| ==>
         && t[i] == mem[i].(attributes := t[i].attributes)
         && OtherBits(t[i].attributes) == OtherBits(mem[i].attributes)
         && (mem[i] == Blank(mem[i].lun) ==> t[i] == mem[i])
  }

  lemma SlotBitsOnlyTrans(a: seq<Entry>, b: seq<Entry>, c: seq<Entry>)
    requires SlotBitsOnly(a, b) && SlotBitsOnly(b, c)
    ensures SlotBitsOnly(a, c)
  {
    hide OtherBits;
    forall i | 0 <= i < |a|
      ensures c[i] == a[i].(attributes := c[i].attributes)
      ensures OtherBits(c[i].attributes) == OtherBits(a[i].attributes)
      ensures a[i] == Blank(a[i].lun) ==> c[i] == a[i]
    {
      assert b[i] == a[i].(attributes := b[i].attributes);
      assert c[i] == b[i].(attributes := c[i].attributes);
    }
  }

  lemma SetAttributesBits(mem: seq<Entry>, k: nat, a: bv64)
    requires k < |mem| && mem[k].name != [] && OtherBits(a) == OtherBits(mem[k].attributes)
    ensures SlotBitsOnly(mem, SetAttributes(mem, k, a))
  {
    hide OtherBits;
  }

  lemma NothingContained(s: Str16)
    requires s != []
    ensures !Contains([], s)
  {
  }

  lemma MarkedBlank(lun: nat)
    ensures Blank(lun).(attributes := Marked(Blank(lun).attributes, false)) == Blank(lun)
  {
  }

  lemma MarkedTableBits(mem: seq<Entry>, n: nat, suffix: Str16)
    requires n <= |mem|
    requires suffix == [] ==> forall i :: 0 <= i < n ==> mem[i] != Blank(mem[i].lun)
    ensures SlotBitsOnly(mem, MarkedTable(mem, n, suffix))
  {
    hide OtherBits, Marked, Contains;
    var t := MarkedTable(mem, n, suffix);
    forall i | 0 <= i < |mem|
      ensures t[i] == mem[i].(attributes := t[i].attributes)
      ensures OtherBits(t[i].attributes) == OtherBits(mem[i].attributes)
      ensures mem[i] == Blank(mem[i].lun) ==> t[i] == mem[i]
    {
      MarkedBits(mem[i].attributes, Contains(mem[i].name, suffix));
      MarkedBlank(mem[i].lun);
      if suffix != [] {
        NothingContained(suffix);
      }
    }
  }

  /** No entry of a table without blank places is blank. */
  lemma NoBlankEntries(mem: seq<Entry>, p: seq<Place>)
    requires |mem| == MAX_NUM_PARTITIONS && |p| <= MAX_NUM_PARTITIONS && TableFits(mem, p) && NoBlanks(p)
    ensures forall i :: 0 <= i < |p| ==> mem[i] != Blank(mem[i].lun)
  {
    hide Data1Zero;
    forall i | 0 <= i < |p|
      ensures mem[i] != Blank(mem[i].lun)
    {
      assert Fits(mem[i], p[i]);
      BlankHasNoGuid(mem[i].lun);
    }
  }

  /** The table keeps its places. */
  lemma BitsFit(mem: seq<Entry>, t: seq<Entry>, p: seq<Place>)
    requires |mem| == MAX_NUM_PARTITIONS && |p| <= MAX_NUM_PARTITIONS && TableFits(mem, p) && SlotBitsOnly(mem, t)
    ensures TableFits(t, p)
  {
    hide OtherBits, Data1Zero;
    forall i | 0 <= i < |p|
      ensures Fits(t[i], p[i])
    {
      assert Fits(mem[i], p[i]);
      assert t[i] == mem[i].(attributes := t[i].attributes);
    }
  }

  lemma BitsDiffer(mem: seq<Entry>, t: seq<Entry>)
    requires SlotBitsOnly(mem, t)
    ensures DiffersOnlyIn(t, mem, PARTITION_ATTRIBUTES)
  {
    hide OtherBits;
  }

  lemma GuidsDiffer(mem: seq<Entry>, t: seq<Entry>)
    requires SameButGuids(mem, t)
    ensures DiffersOnlyIn(t, mem, PARTITION_GUID)
  {
  }

  lemma ExchangedFits(mem: seq<Entry>, i: nat, j: nat, p: seq<Place>)
    requires |mem| == MAX_NUM_PARTITIONS && |p| <= MAX_NUM_PARTITIONS && TableFits(mem, p)
    requires i < |p| && j < |p| && p[i].handle.Record? && p[j].handle.Record?
    ensures TableFits(Exchanged(mem, i, j), p)
  {
    hide Data1Zero;
    assert Fits(mem[i], p[i]) && Fits(mem[j], p[j]);
    var t := Exchanged(mem, i, j);
    forall k | 0 <= k < |p|
      ensures Fits(t[k], p[k])
    {
      assert Fits(mem[k], p[k]);
    }
  }

  lemma NamedIsRecord(mem: seq<Entry>, p: seq<Place>, i: nat)
    requires |mem| == MAX_NUM_PARTITIONS && |p| <= MAX_NUM_PARTITIONS && TableFits(mem, p)
    requires i < |mem| && mem[i].name != []
    ensures i < |p| && p[i].handle.Record? && !Data1Zero(mem[i].typeGuid)
  {
    hide Data1Zero;
    if i < |p| {
      assert Fits(mem[i], p[i]);
    }
  }

  lemma SwapNodeFits(mem: seq<Entry>, base: Str16, active: Str16, p: seq<Place>)
    requires |mem| == MAX_NUM_PARTITIONS && |p| <= MAX_NUM_PARTITIONS && TableFits(mem, p) && SuffixLegal(active, p)
    ensures TableFits(SwapNode(mem, |p|, base, active), p)
  {
    hide TableFits, NoBlanks;
    var cur, new_ := Cat(base, Inactive(active)), Cat(base, active);
    var i, j := LastCurrent(mem, |p|, cur), LastNew(mem, |p|, cur, new_);
    if i >= 0 && j >= 0 {
      assert |mem[i].name| >= |cur| && |mem[j].name| >= |new_|;
      if active == [] {
        BothRecords(p, i, j);
      } else {
        assert cur != [] && new_ != [];
        NamedIsRecord(mem, p, i);
        NamedIsRecord(mem, p, j);
      }
      ExchangedFits(mem, i, j, p);
    }
  }

  lemma BothRecords(p: seq<Place>, i: nat, j: nat)
    requires i < |p| && j < |p| && NoBlanks(p)
    ensures p[i].handle.Record? && p[j].handle.Record?
  {
  }

  lemma {:induction false} SwapNodesFits(mem: seq<Entry>, parts: seq<Str16>, active: Str16, p: seq<Place>)
    requires |mem| == MAX_NUM_PARTITIONS && |p| <= MAX_NUM_PARTITIONS && TableFits(mem, p) && SuffixLegal(active, p)
    ensures TableFits(SwapNodes(mem, |p|, parts, active), p)
    decreases |parts|
  {
    hide TableFits, SwapNode;
    if parts == [] {
    } else {
      SwapNodeFits(mem, parts[0], active, p);
      SwapNodesFits(SwapNode(mem, |p|, parts[0], active), parts[1..], active, p);
    }
  }

  // ---- what is kept ----

  /** Names, unique GUIDs, extents, LUNs and foreign attribute bits are the same; type GUIDs have at most moved. */
  ghost predicate SameTable(mem: seq<Entry>, t: seq<Entry>) {
    && |mem| == |t|
    && (forall i :: 0 <= i < |mem| ==>
         && t[i] == mem[i].(typeGuid := t[i].typeGuid, attributes := t[i].attributes)
         && OtherBits(t[i].attributes) == OtherBits(mem[i].attributes))
    && multiset(Guids(t)) == multiset(Guids(mem))
  }

  lemma SameTableTrans(a: seq<Entry>, b: seq<Entry>, c: seq<Entry>)
    requires SameTable(a, b) && SameTable(b, c)
    ensures SameTable(a, c)
  {
    hide OtherBits, Guids;
    forall i | 0 <= i < |a|
      ensures c[i] == a[i].(typeGuid := c[i].typeGuid, attributes := c[i].attributes)
      ensures OtherBits(c[i].attributes) == OtherBits(a[i].attributes)
    {
      assert b[i] == a[i].(typeGuid := b[i].typeGuid, attributes := b[i].attributes);
      assert c[i] == b[i].(typeGuid := c[i].typeGuid, attributes := c[i].attributes);
    }
  }

  lemma SameTableNames(mem: seq<Entry>, t: seq<Entry>)
    requires SameTable(mem, t)
    ensures SameNames(mem, t)
    ensures NamesFit(mem) ==> NamesFit(t)
  {
    hide OtherBits, Guids;
    forall i | 0 <= i < |mem|
      ensures t[i].name == mem[i].name
    {
      assert t[i] == mem[i].(typeGuid := t[i].typeGuid, attributes := t[i].attributes);
    }
  }

  lemma BitsSameTable(mem: seq<Entry>, t: seq<Entry>)
    requires SlotBitsOnly(mem, t)
    ensures |t| == |mem| && SameTable(mem, t)
  {
    hide OtherBits;
    forall i | 0 <= i < |mem|
      ensures t[i] == mem[i].(typeGuid := t[i].typeGuid, attributes := t[i].attributes)
      ensures t[i].typeGuid == mem[i].typeGuid
    {
      assert t[i] == mem[i].(attributes := t[i].attributes);
    }
    assert Guids(t) == Guids(mem);
  }

  lemma GuidsSameTable(mem: seq<Entry>, t: seq<Entry>)
    requires SameButGuids(mem, t) && multiset(Guids(t)) == multiset(Guids(mem))
    ensures SameTable(mem, t)
  {
    hide OtherBits, Guids;
    forall i | 0 <= i < |mem|
      ensures t[i] == mem[i].(typeGuid := t[i].typeGuid, attributes := t[i].attributes)
      ensures OtherBits(t[i].attributes) == OtherBits(mem[i].attributes)
    {
      assert t[i] == mem[i].(typeGuid := t[i].typeGuid);
    }
  }

  /**
   * The table is the same up to moved type GUIDs and slot bits, and on every LUN only
   * type GUIDs, attribute words and checksums are rewritten, with checksums that validate;
   * a backup that agreed with memory still does.
   */
  ghost predicate Kept(st: State, st': State) {
    && st'.count == st.count && st'.device == st.device
    && SameTable(st.mem, st'.mem)
    && AllUpdated(st, st')
    && BackupFollows(st, st')
  }

  lemma KeptRefl(st: State)
    ensures Kept(st, st)
  {
    hide OtherBits, Guids, BackupAgrees;
  }

  lemma LunUpdatedTrans(a: Lun, b: Lun, c: Lun)
    requires LunUpdated(a, b) && LunUpdated(b, c)
    ensures LunUpdated(a, c)
  {
    SameDeclares(a, b, false);
    SameDeclares(a, b, true);
    CopyKeptTrans(a, b, c, false);
    CopyKeptTrans(a, b, c, true);
    hide CopyKept, InWritten;
    forall x | 0 <= x < |a.bytes| && !InWritten(a, x)
      ensures c.bytes[x] == a.bytes[x]
    {
      SameShapeWritten(a, b, x);
    }
  }

  lemma CopyKeptTrans(a: Lun, b: Lun, c: Lun, backup: bool)
    requires SameShape(a, b) && SameShape(b, c) && CopyKept(a, b, backup) && CopyKept(b, c, backup)
    requires PlainHeader(Header(b, backup)) == PlainHeader(Header(a, backup))
    ensures CopyKept(a, c, backup)
  {
    hide Header, Table, PlainHeader, Sound, LunOk;
  }

  lemma SameShapeWritten(a: Lun, b: Lun, x: int)
    requires SameShape(a, b)
    ensures InWritten(a, x) == InWritten(b, x)
  {
  }

  lemma KeptTrans(a: State, b: State, c: State)
    requires Kept(a, b) && Kept(b, c)
    ensures Kept(a, c)
  {
    hide OtherBits, Guids, LunUpdated, SameTable, BackupAgrees;
    SameTableTrans(a.mem, b.mem, c.mem);
    forall k | 0 <= k < |a.luns|
      ensures c.luns[k] == a.luns[k] || (a.luns[k].Lun? && LunUpdated(a.luns[k], c.luns[k]))
    {
      if b.luns[k] != a.luns[k] && c.luns[k] != b.luns[k] {
        LunUpdatedTrans(a.luns[k], b.luns[k], c.luns[k]);
      }
    }
  }

  /** The state between operations: in step, on a disk whose headers stop no update. */
  ghost predicate Inv(st: State, p: seq<Place>) {
    InStep(st, p) && Accepting(st.luns, p) && !st.device.UnknownDevice? && NamesFit(st.mem)
  }

  /** A change of the table followed by the matching update. */
  lemma ChangeKeeps(st: State, p: seq<Place>, t: seq<Entry>, ut: UpdateType)
    requires Inv(st, p) && |t| == |st.mem| && TableFits(t, p) && DiffersOnlyIn(t, st.mem, ut) && SameTable(st.mem, t)
    ensures var r := UpdatePartitionAttributes(st.(mem := t), ut);
      Inv(r, p) && Kept(st, r) && r.mem == t
  {
    hide UpdatePartitionAttributes, DiskOrder, TableFits, Holds, LunUpdated, DiffersOnlyIn, SameTable, Guids, BackupFollows;
    hide Accepting, Completes, PrimaryRefused, NoChangeBehind;
    var st1 := st.(mem := t);
    ChangeReady(st, p, t, ut);
    AcceptingUnstopped(st1, p, ut);
    AcceptingCompletes(st1, p, ut);
    UpdateSyncs(st1, p, ut);
    AcceptingKept(st1, UpdatePartitionAttributes(st1, ut), p);
    ChangeFollows(st, p, t, ut);
    SameTableNames(st.mem, t);
  }

  lemma BitsKeep(st: State, p: seq<Place>, t: seq<Entry>)
    requires Inv(st, p) && SlotBitsOnly(st.mem, t)
    ensures var r := UpdatePartitionAttributes(st.(mem := t), PARTITION_ATTRIBUTES);
      Inv(r, p) && Kept(st, r) && r.mem == t
  {
    hide UpdatePartitionAttributes, DiskOrder, TableFits, Mirrored, LunUpdated, DiffersOnlyIn, SameTable, SlotBitsOnly, Kept;
    BitsFit(st.mem, t, p);
    BitsDiffer(st.mem, t);
    BitsSameTable(st.mem, t);
    ChangeKeeps(st, p, t, PARTITION_ATTRIBUTES);
  }

  /** An update of a table that is in step touches nothing. */
  lemma UpdateIdle(st: State, p: seq<Place>, ut: UpdateType)
    requires InStep(st, p)
    ensures UpdatePartitionAttributes(st, ut) == st
  {
  }

  // ---- the operations, one by one ----

  lemma BootIndexNamed(mem: seq<Entry>, count: nat, suffix: Str16)
    requires count <= |mem|
    ensures BootIndex(mem, count, suffix) < count ==> mem[BootIndex(mem, count, suffix)].name != []
  {
  }

  lemma ClearKeeps(st: State, p: seq<Place>, suffix: Str16)
    requires Inv(st, p)
    ensures var r := ClearUnbootable(st, suffix).1;
      Inv(r, p) && Kept(st, r) && r.bootLun == st.bootLun && r.parts == st.parts
    ensures var k := BootIndex(st.mem, st.count, suffix);
      ClearUnbootable(st, suffix).1.mem
      == if k == st.count then st.mem else SetAttributes(st.mem, k, ClearedUnbootable(st.mem[k].attributes))
  {
    hide UpdatePartitionAttributes, InStep, Kept, ClearedUnbootable, SlotBitsOnly, OtherBits;
    InvOk(st, p);
    var k := BootIndex(st.mem, st.count, suffix);
    BootIndexNamed(st.mem, st.count, suffix);
    if k == st.count {
      KeptRefl(st);
    } else {
      ClearedBits(st.mem[k].attributes);
      SetAttributesBits(st.mem, k, ClearedUnbootable(st.mem[k].attributes));
      BitsKeep(st, p, SetAttributes(st.mem, k, ClearedUnbootable(st.mem[k].attributes)));
    }
  }

  lemma InvOk(st: State, p: seq<Place>)
    requires Inv(st, p)
    ensures StateOk(st) && st.mem == st.bak && NamesFit(st.mem)
  {
  }

  lemma GetKeeps(st: State, p: seq<Place>)
    requires Inv(st, p)
    ensures var r := GetActiveSlot(st).st;
      Inv(r, p) && Kept(st, r) && r.bootLun == st.bootLun && r.parts == st.parts
  {
    hide UpdatePartitionAttributes, InStep, Kept, FirstBoot, SlotBitsOnly, OtherBits, Beats, NeverBooted;
    InvOk(st, p);
    KeptRefl(st);
    var k := BootIndex(st.mem, st.count, SUFFIX_A);
    BootIndexNamed(st.mem, st.count, SUFFIX_A);
    if k < st.count {
      FirstBootBits(st.mem[k].attributes);
      SetAttributesBits(st.mem, k, FirstBoot(st.mem[k].attributes));
      BitsKeep(st, p, SetAttributes(st.mem, k, FirstBoot(st.mem[k].attributes)));
    }
  }

  lemma RefreshKeeps(st: State, p: seq<Place>, suffix: Str16, resetSuccess: bool, setSuccess: bool)
    requires Inv(st, p) && BootIndex(st.mem, st.count, SUFFIX_A) < st.count && BootIndex(st.mem, st.count, SUFFIX_B) < st.count
    ensures var r := Refresh(st, suffix, resetSuccess, setSuccess);
      Inv(r.1, p) && Kept(st, r.1) && r.1.bootLun == st.bootLun && r.1.parts == st.parts
    ensures Refresh(st, suffix, resetSuccess, setSuccess).0 != Success ==> Refresh(st, suffix, resetSuccess, setSuccess).1 == st
  {
    hide UpdatePartitionAttributes, InStep, Kept, Activated, Demoted, SlotBitsOnly, OtherBits, SetAttributes;
    InvOk(st, p);
    KeptRefl(st);
    var k := BootIndex(st.mem, st.count, suffix);
    BootIndexNamed(st.mem, st.count, suffix);
    if k < st.count {
      var mem2 := SetAttributes(st.mem, k, Activated(st.mem[k].attributes, resetSuccess, setSuccess));
      ActivatedBits(st.mem[k].attributes, resetSuccess, setSuccess);
      SetAttributesBits(st.mem, k, Activated(st.mem[k].attributes, resetSuccess, setSuccess));
      BitsNames(st.mem, mem2);
      BootIndexKept(st.mem, mem2, st.count, Inactive(suffix));
      var k' := BootIndex(mem2, st.count, Inactive(suffix));
      BootIndexNamed(mem2, st.count, Inactive(suffix));
      DemotedBits(mem2[k'].attributes);
      SetAttributesBits(mem2, k', Demoted(mem2[k'].attributes));
      SlotBitsOnlyTrans(st.mem, mem2, SetAttributes(mem2, k', Demoted(mem2[k'].attributes)));
      BitsKeep(st, p, SetAttributes(mem2, k', Demoted(mem2[k'].attributes)));
    }
  }

  lemma BitsNames(mem: seq<Entry>, t: seq<Entry>)
    requires SlotBitsOnly(mem, t)
    ensures SameNames(mem, t)
  {
    hide OtherBits;
    forall i | 0 <= i < |mem|
      ensures t[i].name == mem[i].name
    {
      assert t[i] == mem[i].(attributes := t[i].attributes);
    }
  }

  lemma SwitchKeeps(st: State, p: seq<Place>, active: Str16)
    requires Inv(st, p) && SuffixLegal(active, p)
    ensures var r := SwitchPtnSlots(st, active);
      Inv(r, p) && Kept(st, r) && r.parts == PartsFor(st) && r.mem == SwapNodes(st.mem, st.count, PartsFor(st), active)
      && r.bootLun == if st.device.Ufs? then SwitchedBootLun(st.bootLun, active) else st.bootLun
  {
    hide UpdatePartitionAttributes, InStep, Kept, SameTable, SwapNodes, PartsList, TableFits, DiffersOnlyIn;
    InvOk(st, p);
    var parts := PartsFor(st);
    PartsFit(st.mem, st.count, st.count);
    var t := SwapNodes(st.mem, st.count, parts, active);
    SwapNodesPermutes(st.mem, st.count, parts, active);
    GuidsDiffer(st.mem, t);
    GuidsSameTable(st.mem, t);
    InvFits(st, p);
    SwapNodesFits(st.mem, parts, active, p);
    var b := if st.device.Ufs? then SwitchedBootLun(st.bootLun, active) else st.bootLun;
    OtherFields(st, p, parts, b);
    ChangeKeeps(st.(parts := parts, bootLun := b), p, t, PARTITION_GUID);
  }

  /** A switch that moves some type GUID repairs the type GUIDs of every backup table. */
  lemma SwitchRepairs(st: State, p: seq<Place>, active: Str16)
    requires Inv(st, p) && SuffixLegal(active, p) && StateOk(st) && NamesFit(st.mem)
    requires SwapNodes(st.mem, st.count, PartsFor(st), active) != st.mem
    ensures BackupAgrees(SwitchPtnSlots(st, active), PARTITION_GUID)
  {
    hide UpdatePartitionAttributes, InStep, SwapNodes, PartsList, TableFits, DiffersOnlyIn, BackupAgrees, BackupWritten, Framed, Mirrored;
    var parts := PartsFor(st);
    PartsFit(st.mem, st.count, st.count);
    var t := SwapNodes(st.mem, st.count, parts, active);
    SwapNodesPermutes(st.mem, st.count, parts, active);
    GuidsDiffer(st.mem, t);
    InvFits(st, p);
    SwapNodesFits(st.mem, parts, active, p);
    var b := if st.device.Ufs? then SwitchedBootLun(st.bootLun, active) else st.bootLun;
    OtherFields(st, p, parts, b);
    ChangeReady(st.(parts := parts, bootLun := b), p, t, PARTITION_GUID);
    AcceptingUnstopped(st.(parts := parts, bootLun := b, mem := t), p, PARTITION_GUID);
    GuidUpdateRepairs(st.(parts := parts, bootLun := b, mem := t), p, PARTITION_GUID);
  }

  lemma ChangeReady(st: State, p: seq<Place>, t: seq<Entry>, ut: UpdateType)
    requires Inv(st, p) && |t| == |st.mem| && TableFits(t, p) && DiffersOnlyIn(t, st.mem, ut)
    ensures Ready(st.(mem := t), p, ut) && st.mem == st.bak
    ensures Framed(st.(mem := t), p) && Accepting(st.(mem := t).luns, p)
  {
    hide DiskOrder, TableFits, Holds, DiffersOnlyIn;
    var st1 := st.(mem := t);
    assert Framed(st1, p);
    assert Mirrored(st1, p);
  }

  lemma InvFits(st: State, p: seq<Place>)
    requires Inv(st, p)
    ensures |p| == st.count <= MAX_NUM_PARTITIONS && TableFits(st.mem, p)
  {
  }

  /** The invariant does not look at the list or the boot LUN. */
  lemma OtherFields(st: State, p: seq<Place>, parts: seq<Str16>, bootLun: nat)
    requires Inv(st, p) && forall k :: 0 <= k < |parts| ==> |parts[k]| < BOOT_PART_SIZE
    ensures var r := st.(parts := parts, bootLun := bootLun); Inv(r, p) && Kept(st, r)
    ensures forall r: State :: Kept(st.(parts := parts, bootLun := bootLun), r) ==> Kept(st, r)
  {
    hide DiskOrder, TableFits, Holds, LunUpdated, SameTable, BackupAgrees;
    var st1 := st.(parts := parts, bootLun := bootLun);
    SameAgreement(st, parts, bootLun);
    assert Framed(st1, p);
    assert Mirrored(st1, p);
    SameTableRefl(st.mem);
  }

  lemma SameAgreement(st: State, parts: seq<Str16>, bootLun: nat)
    requires StateOk(st) && forall k :: 0 <= k < |parts| ==> |parts[k]| < BOOT_PART_SIZE
    ensures forall ut :: BackupAgrees(st.(parts := parts, bootLun := bootLun), ut) <==> BackupAgrees(st, ut)
  {
    hide GuidAt, AttributesAt, Data1Zero, Rank, SlotAt, LunOk;
    var st1 := st.(parts := parts, bootLun := bootLun);
    forall i: nat
      ensures OnDisk(st1, i) <==> OnDisk(st, i)
      ensures OnDisk(st, i) ==> BackupGuid(st1, i) == BackupGuid(st, i) && BackupAttributes(st1, i) == BackupAttributes(st, i)
    {
    }
  }

  lemma SameTableRefl(mem: seq<Entry>)
    ensures SameTable(mem, mem)
  {
    hide OtherBits, Guids;
  }

  lemma MarkKeeps(st: State, p: seq<Place>, suffix: Str16)
    requires Inv(st, p) && SuffixLegal(suffix, p)
    ensures var r := MarkPtnActive(st, suffix);
      Inv(r, p) && Kept(st, r) && r.bootLun == st.bootLun && r.parts == st.parts && r.mem == MarkedTable(st.mem, st.count, suffix)
  {
    hide UpdatePartitionAttributes, InStep, Kept, SlotBitsOnly, MarkedTable;
    InvOk(st, p);
    InvFits(st, p);
    if suffix == [] {
      NoBlankEntries(st.mem, p);
    }
    MarkedTableBits(st.mem, st.count, suffix);
    BitsKeep(st, p, MarkedTable(st.mem, st.count, suffix));
  }

  lemma SettleKeeps(st: State, p: seq<Place>, current: Str16, suffix: Str16)
    requires Inv(st, p) && SuffixLegal(suffix, p)
    ensures var r := Settle(st, current, suffix); Inv(r, p) && Kept(st, r)
  {
    hide UpdatePartitionAttributes, InStep, Inv, Kept, HasPrefix, SwitchPtnSlots, MarkPtnActive;
    InvOk(st, p);
    if HasPrefix(suffix, current) {
      OtherFields(st, p, st.parts, SwitchedBootLun(st.bootLun, current));
      KeptRefl(st);
    } else {
      SwitchKeeps(st, p, suffix);
      MarkKeeps(SwitchPtnSlots(st, suffix), p, suffix);
      KeptTrans(st, SwitchPtnSlots(st, suffix), Settle(st, current, suffix));
    }
  }

  /** A successful GetActiveSlot has found both boot partitions. */
  lemma GetFinds(st: State)
    requires StateOk(st) && GetActiveSlot(st).status == Success
    ensures var r := GetActiveSlot(st).st;
      && r.count == st.count && SameNames(st.mem, r.mem)
      && BootIndex(r.mem, r.count, SUFFIX_A) < r.count && BootIndex(r.mem, r.count, SUFFIX_B) < r.count
      && BootIndex(r.mem, r.count, SUFFIX_A) == BootIndex(st.mem, st.count, SUFFIX_A)
      && BootIndex(r.mem, r.count, SUFFIX_B) == BootIndex(st.mem, st.count, SUFFIX_B)
  {
    hide UpdatePartitionAttributes, FirstBoot, Beats, NeverBooted;
    var r := GetActiveSlot(st).st;
    assert SameNames(st.mem, r.mem);
    BootIndexKept(st.mem, r.mem, st.count, SUFFIX_A);
    BootIndexKept(st.mem, r.mem, st.count, SUFFIX_B);
  }

  lemma SetKeeps(st: State, p: seq<Place>, suffix: Str16, resetSuccess: bool, setSuccess: bool)
    requires Inv(st, p) && SuffixLegal(suffix, p)
    ensures var r := SetActiveSlot(st, suffix, resetSuccess, setSuccess).1; Inv(r, p) && Kept(st, r)
  {
    hide GetActiveSlot, Refresh, Settle, Inv, Kept;
    InvOk(st, p);
    GetKeeps(st, p);
    var current := GetActiveSlot(st);
    if current.status == Success {
      GetFinds(st);
      RefreshKeeps(current.st, p, suffix, resetSuccess, setSuccess);
      var refreshed := Refresh(current.st, suffix, resetSuccess, setSuccess);
      KeptTrans(st, current.st, refreshed.1);
      if refreshed.0 == Success {
        SettleKeeps(refreshed.1, p, current.suffix, suffix);
        InvOk(refreshed.1, p);
        KeptTrans(st, refreshed.1, Settle(refreshed.1, current.suffix, suffix));
      }
    }
  }
}
