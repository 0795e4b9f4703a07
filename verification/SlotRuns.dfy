/**
 * Runs of slot operations: the slot made active last stays the active one, and the boot
 * LUN follows it (PartitionTableUpdate.c, lines 65-99 and 744-976).
 */
module SlotRuns {
  import opened Wrappers
  import opened Crc32Spec
  import opened SlotTypes
  import opened SlotSpec
  import opened SlotBits
  import opened CopyUpdate
  import opened GptSync
  import opened GptBackup
  import opened GptUpdate
  import opened SlotSwap
  import opened SlotInvariant

  // ---- a settled slot ----

  /** Slot s is active with priority 3, the other one inactive with priority 2. */
  predicate SettledTable(mem: seq<Entry>, count: nat, s: Str16)
    requires count <= |mem|
  {
    var k, o := BootIndex(mem, count, s), BootIndex(mem, count, OtherSuffix(s));
    && IsSuffix(s) && k < count && o < count
    && Active(mem[k].attributes) && Priority(mem[k].attributes) == 3
    && !Active(mem[o].attributes) && Priority(mem[o].attributes) == 2
  }

  /** On UFS, when the device boots from LUN 1 or 2, it boots from LUN 1 exactly for slot _a. */
  predicate BootLunFollows(st: State, s: Str16) {
    st.device.Ufs? && (st.bootLun == 1 || st.bootLun == 2) ==> (st.bootLun == 1 <==> s == SUFFIX_A)
  }

  predicate Settled(st: State, s: Str16)
    requires StateOk(st)
  {
    SettledTable(st.mem, st.count, s) && BootLunFollows(st, s)
  }

  /** The one settled slot is the one GetActiveSlot finds. */
  lemma SettledIsActive(st: State, s: Str16)
    requires StateOk(st) && SettledTable(st.mem, st.count, s)
    ensures GetActiveSlot(st) == Found(Success, s, st)
  {
    hide Active, Priority;
  }

  lemma BootIndexIs(mem: seq<Entry>, count: nat, s: Str16)
    requires count <= |mem| && IsSuffix(s)
    ensures BootIndex(mem, count, s) == IndexFrom(mem, count, 0, BOOT + s)
    ensures BootIndex(mem, count, s) < count ==> mem[BootIndex(mem, count, s)].name == BOOT + s
  {
  }

  lemma BootNamesDiffer()
    ensures BOOT + SUFFIX_A != BOOT + SUFFIX_B
  {
    assert (BOOT + SUFFIX_A)[5] == LETTER_A && (BOOT + SUFFIX_B)[5] == LETTER_B;
  }

  lemma TwoBootEntries(mem: seq<Entry>, count: nat, s: Str16)
    requires count <= |mem| && IsSuffix(s)
    ensures var k, o := BootIndex(mem, count, s), BootIndex(mem, count, OtherSuffix(s));
      k < count && o < count ==> k != o && mem[k].name == BOOT + s && mem[o].name == BOOT + OtherSuffix(s)
  {
    BootIndexIs(mem, count, s);
    BootIndexIs(mem, count, OtherSuffix(s));
    BootNamesDiffer();
  }

  /** boot_a contains _a and not _b; boot_b the other way round. */
  lemma BootContains(s: Str16)
    requires IsSuffix(s)
    ensures Contains(BOOT + s, s) && !Contains(BOOT + OtherSuffix(s), s)
  {
    assert HasPrefix((BOOT + s)[4..], s);
    var n := BOOT + OtherSuffix(s);
    forall k | 0 <= k <= |n| - |s|
      ensures !HasPrefix(n[k..], s)
    {
      assert n[k..][0] == n[k] && n[k..][1] == n[k + 1];
      PrefixChar(n[k..], s, 0);
      PrefixChar(n[k..], s, 1);
    }
  }

  /** The words of the two boot slots after Refresh. */
  lemma RefreshedWords(st: State, s: Str16, resetSuccess: bool, setSuccess: bool)
    requires StateOk(st) && IsSuffix(s) && Refresh(st, s, resetSuccess, setSuccess).0 == Success
    ensures var r := Refresh(st, s, resetSuccess, setSuccess).1;
      var k, o := BootIndex(st.mem, st.count, s), BootIndex(st.mem, st.count, OtherSuffix(s));
      && r.count == st.count && r.bootLun == st.bootLun && r.device == st.device && r.parts == st.parts
      && k < st.count && o < st.count && k != o && SameNames(st.mem, r.mem)
      && r.mem[k].attributes == Activated(st.mem[k].attributes, resetSuccess, setSuccess)
      && r.mem[o].attributes == Demoted(st.mem[o].attributes)
      && (forall i :: 0 <= i < |st.mem| && i != k && i != o ==> r.mem[i] == st.mem[i])
      && SameTypes(st.mem, r.mem)
  {
    hide UpdatePartitionAttributes, Activated, Demoted;
    InactiveIs(s);
    var k := BootIndex(st.mem, st.count, s);
    var mem2 := SetAttributes(st.mem, k, Activated(st.mem[k].attributes, resetSuccess, setSuccess));
    assert SameNames(st.mem, mem2);
    BootIndexKept(st.mem, mem2, st.count, OtherSuffix(s));
    TwoBootEntries(st.mem, st.count, s);
  }

  lemma RefreshSettles(st: State, s: Str16, resetSuccess: bool, setSuccess: bool)
    requires StateOk(st) && IsSuffix(s) && Refresh(st, s, resetSuccess, setSuccess).0 == Success
    ensures var r := Refresh(st, s, resetSuccess, setSuccess).1; SettledTable(r.mem, r.count, s)
  {
    hide Refresh, Activated, Demoted, Active, Priority, OtherBits, Successful, Unbootable, FullRetry;
    RefreshedWords(st, s, resetSuccess, setSuccess);
    var r := Refresh(st, s, resetSuccess, setSuccess).1;
    var k, o := BootIndex(st.mem, st.count, s), BootIndex(st.mem, st.count, OtherSuffix(s));
    ActivatedBits(st.mem[k].attributes, resetSuccess, setSuccess);
    DemotedBits(st.mem[o].attributes);
    BootIndexKept(st.mem, r.mem, st.count, s);
    BootIndexKept(st.mem, r.mem, st.count, OtherSuffix(s));
  }

  /** Moving type GUIDs and marking the slot keep it settled. */
  lemma MarkSettles(mem: seq<Entry>, t: seq<Entry>, count: nat, s: Str16)
    requires count <= |mem| && SettledTable(mem, count, s) && SameButGuids(mem, t)
    ensures SettledTable(MarkedTable(t, count, s), count, s)
  {
    hide Active, Priority, OtherBits, Marked, Successful, Unbootable, FullRetry, Contains;
    var k, o := BootIndex(mem, count, s), BootIndex(mem, count, OtherSuffix(s));
    var u := MarkedTable(t, count, s);
    TwoBootEntries(mem, count, s);
    BootContains(s);
    assert t[k] == mem[k].(typeGuid := t[k].typeGuid) && t[o] == mem[o].(typeGuid := t[o].typeGuid);
    MarkedBits(mem[k].attributes, true);
    MarkedBits(mem[o].attributes, false);
    assert SameNames(mem, u);
    BootIndexKept(mem, u, count, s);
    BootIndexKept(mem, u, count, OtherSuffix(s));
  }

  lemma SameSuffix(s: Str16, current: Str16)
    requires IsSuffix(s) && IsSuffix(current)
    ensures HasPrefix(s, current) <==> s == current
  {
  }

  lemma BootLunSet(st: State, s: Str16)
    requires IsSuffix(s)
    ensures BootLunFollows(st.(bootLun := if st.device.Ufs? then SwitchedBootLun(st.bootLun, s) else st.bootLun), s)
  {
    SameSuffix(s, SUFFIX_A);
    SameSuffix(s, SUFFIX_B);
  }

  /** Whatever the state before: a successful SetActiveSlot leaves the slot settled, on either path. */
  lemma SetSettles(st: State, s: Str16, resetSuccess: bool, setSuccess: bool)
    requires StateOk(st) && NamesFit(st.mem) && IsSuffix(s) && SetActiveSlot(st, s, resetSuccess, setSuccess).0 == Success
    ensures Settled(SetActiveSlot(st, s, resetSuccess, setSuccess).1, s)
  {
    hide UpdatePartitionAttributes, GetActiveSlot, Refresh, SwapNodes, MarkedTable, PartsList, SettledTable, HasPrefix;
    var current := GetActiveSlot(st);
    NamesKeptByGet(st);
    var r := Refresh(current.st, s, resetSuccess, setSuccess).1;
    RefreshSettles(current.st, s, resetSuccess, setSuccess);
    SameSuffix(s, current.suffix);
    BootLunSet(r, s);
    if s != current.suffix {
      PartsFit(r.mem, r.count, r.count);
      SwapNodesPermutes(r.mem, r.count, PartsFor(r), s);
      MarkSettles(r.mem, SwapNodes(r.mem, r.count, PartsFor(r), s), r.count, s);
    }
  }

  /** SetActiveSlot succeeds for a proper suffix exactly when there is an active slot to start from. */
  lemma SetSucceeds(st: State, s: Str16, resetSuccess: bool, setSuccess: bool)
    requires StateOk(st) && NamesFit(st.mem) && IsSuffix(s)
    ensures SetActiveSlot(st, s, resetSuccess, setSuccess).0 == Success <==> GetActiveSlot(st).status == Success
  {
    hide UpdatePartitionAttributes, GetActiveSlot, Settle, Activated, Demoted;
    NamesKeptByGet(st);
    if GetActiveSlot(st).status == Success {
      GetFinds(st);
      var st1 := GetActiveSlot(st).st;
      InactiveIs(s);
      var k := BootIndex(st1.mem, st1.count, s);
      var mem2 := SetAttributes(st1.mem, k, Activated(st1.mem[k].attributes, resetSuccess, setSuccess));
      assert SameNames(st1.mem, mem2);
      BootIndexKept(st1.mem, mem2, st1.count, OtherSuffix(s));
    }
  }

  /** After a successful SetActiveSlot, GetActiveSlot returns the slot set exactly if it was a proper one. */
  lemma SetThenGet(st: State, s: Str16, resetSuccess: bool, setSuccess: bool)
    requires StateOk(st) && NamesFit(st.mem) && SetActiveSlot(st, s, resetSuccess, setSuccess).0 == Success
    ensures var r := SetActiveSlot(st, s, resetSuccess, setSuccess).1;
      GetActiveSlot(r).status == Success && GetActiveSlot(r).suffix == s <==> IsSuffix(s)
  {
    hide GetActiveSlot, SetActiveSlot;
    if IsSuffix(s) {
      SetSettles(st, s, resetSuccess, setSuccess);
      SettledIsActive(SetActiveSlot(st, s, resetSuccess, setSuccess).1, s);
    }
  }

  // ---- loading ----

  /** Reading the primary GPTs again gives back the table, whenever it is in step. */
  lemma ReloadIdle(st: State, handles: seq<seq<Handle>>)
    requires InStep(st, AllPlaces(handles))
    ensures UpdatePartitionEntries(st, handles) == st
  {
    hide Decode, Data1Zero, DiskOrder, Loaded, LunOk;
    var p := AllPlaces(handles);
    var t := Loaded(p, st.luns);
    forall i | 0 <= i < MAX_NUM_PARTITIONS
      ensures t[i] == st.mem[i]
    {
      LoadedAt(p, st.luns, i);
      if i < |p| {
        assert Fits(st.mem[i], p[i]);
      }
    }
    assert t == st.mem;
  }

  /** A disk that can be read: handles enumerated in disk order, a type GUID in every record.  The backup tables may hold anything. */
  ghost predicate Readable(luns: seq<Lun>, p: seq<Place>) {
    && |p| <= MAX_NUM_PARTITIONS && DiskOrder(p) && PlacesOk(p, luns)
    && (forall l :: 0 <= l < |luns| ==> LunOk(luns[l]))
    && forall i :: 0 <= i < |p| && p[i].handle.Record? ==> !Data1Zero(StoredGuid(luns[p[i].lun], p[i].handle.slot))
  }

  /** The type GUID in a slot of the primary table. */
  function StoredGuid(l: Lun, k: nat): Guid
    requires l.Lun? && LunOk(l) && k < MAX_NUM_PARTITIONS
  {
    GuidAt(l.bytes, SlotAt(l, false, k))
  }

  /** A disk the engine may be started on: it can be read, and its headers stop no update. */
  ghost predicate GoodDisk(luns: seq<Lun>, p: seq<Place>) {
    Readable(luns, p) && Accepting(luns, p)
  }

  lemma DecodedFields(b: seq<Byte>, at: nat, lun: nat)
    requires at + PARTITION_ENTRY_SIZE <= |b|
    ensures var e := Decode(b, at, lun); e.typeGuid == GuidAt(b, at) && e.attributes == AttributesAt(b, at) && e.lun == lun
  {
  }

  /** Loading a readable disk puts memory, shadow and primary in step. */
  lemma LoadSyncs(st: State, handles: seq<seq<Handle>>)
    requires StateOk(st) && Readable(st.luns, AllPlaces(handles))
    ensures InStep(UpdatePartitionEntries(st, handles), AllPlaces(handles))
  {
    hide Decode, Data1Zero, DiskOrder, Loaded, LunOk, GuidAt, AttributesAt, SlotAt;
    var p := AllPlaces(handles);
    var r := UpdatePartitionEntries(st, handles);
    var t := Loaded(p, st.luns);
    forall i | 0 <= i < MAX_NUM_PARTITIONS
      ensures i < |p| ==> Fits(t[i], p[i])
      ensures i >= |p| ==> t[i] == Blank(0)
      ensures i < |p| && p[i].handle.Record? ==> Holds(r.luns[p[i].lun], p[i].handle.slot, t[i])
    {
      LoadedAt(p, st.luns, i);
      if i < |p| && p[i].handle.Record? {
        assert !Data1Zero(StoredGuid(st.luns[p[i].lun], p[i].handle.slot));
        DecodedFields(st.luns[p[i].lun].bytes, SlotAt(st.luns[p[i].lun], false, p[i].handle.slot), p[i].lun);
      }
    }
    assert TableFits(t, p);
    assert Framed(r, p);
    assert Mirrored(r, p);
  }

  // ---- runs ----

  datatype Op =
    | GetActive
    | SetActive(suffix: Str16, resetSuccess: bool, setSuccess: bool)
    | Clear(suffix: Str16)
    | Update(ut: UpdateType)
    | Reload

  ghost predicate Legal(op: Op, handles: seq<seq<Handle>>) {
    op.SetActive? ==> SuffixLegal(op.suffix, AllPlaces(handles))
  }

  ghost function Step(st: State, handles: seq<seq<Handle>>, op: Op): (r: State)
    requires Inv(st, AllPlaces(handles)) && Legal(op, handles)
    ensures StateOk(r)
  {
    match op
    case GetActive => GetActiveSlot(st).st
    case SetActive(suffix, resetSuccess, setSuccess) => SetActiveSlot(st, suffix, resetSuccess, setSuccess).1
    case Clear(suffix) => ClearUnbootable(st, suffix).1
    case Update(ut) => UpdatePartitionAttributes(st, ut)
    case Reload => UpdatePartitionEntries(st, handles)
  }

  /** The call sets a slot and succeeds. */
  ghost predicate Sets(st: State, op: Op)
    requires StateOk(st) && NamesFit(st.mem)
  {
    op.SetActive? && SetActiveSlot(st, op.suffix, op.resetSuccess, op.setSuccess).0 == Success
  }

  lemma StepKeeps(st: State, handles: seq<seq<Handle>>, op: Op)
    requires Inv(st, AllPlaces(handles)) && Legal(op, handles)
    ensures var r := Step(st, handles, op); Inv(r, AllPlaces(handles)) && Kept(st, r)
  {
    hide GetActiveSlot, SetActiveSlot, ClearUnbootable, Kept;
    var p := AllPlaces(handles);
    match op
    case GetActive => GetKeeps(st, p);
    case SetActive(suffix, resetSuccess, setSuccess) => SetKeeps(st, p, suffix, resetSuccess, setSuccess);
    case Clear(suffix) => ClearKeeps(st, p, suffix);
    case Update(ut) =>
      UpdateIdle(st, p, ut);
      KeptRefl(st);
    case Reload =>
      ReloadIdle(st, handles);
      KeptRefl(st);
  }

  ghost predicate AllLegal(ops: seq<Op>, handles: seq<seq<Handle>>) {
    forall i :: 0 <= i < |ops| ==> Legal(ops[i], handles)
  }

  /** The state after the operations, first one first. */
  ghost function Run(st: State, handles: seq<seq<Handle>>, ops: seq<Op>): (r: State)
    requires Inv(st, AllPlaces(handles)) && AllLegal(ops, handles)
    ensures Inv(r, AllPlaces(handles))
    decreases |ops|
  {
    if ops == [] then st
    else
      var m := Run(st, handles, ops[..|ops| - 1]);
      StepKeeps(m, handles, ops[|ops| - 1]);
      Step(m, handles, ops[|ops| - 1])
  }

  /**
   * Every run keeps memory, shadow and primary in step, whatever the backups hold, keeps
   * the identity of the table, rewrites nothing but type GUIDs, attribute words and
   * checksums, and leaves a backup that agreed with memory in agreement.
   */
  lemma {:induction false} RunKeeps(st: State, handles: seq<seq<Handle>>, ops: seq<Op>)
    requires Inv(st, AllPlaces(handles)) && AllLegal(ops, handles)
    ensures var r := Run(st, handles, ops);
      && InStep(r, AllPlaces(handles)) && Kept(st, r) && Loaded(AllPlaces(handles), r.luns) == r.mem
    decreases |ops|
  {
    hide Kept, Step, InStep;
    if ops == [] {
      KeptRefl(st);
    } else {
      var m := Run(st, handles, ops[..|ops| - 1]);
      RunKeeps(st, handles, ops[..|ops| - 1]);
      StepKeeps(m, handles, ops[|ops| - 1]);
      KeptTrans(st, m, Step(m, handles, ops[|ops| - 1]));
    }
    ReloadIdle(Run(st, handles, ops), handles);
  }

  /** Started on a disk whose backups repeat the primaries, a run ends with all four in agreement. */
  lemma RunKeepsBackups(st: State, handles: seq<seq<Handle>>, ops: seq<Op>)
    requires Inv(st, AllPlaces(handles)) && AllLegal(ops, handles) && BackupAgrees(st, PARTITION_ALL)
    ensures BackupAgrees(Run(st, handles, ops), PARTITION_ALL)
  {
    hide Run, InStep, SameTable, AllUpdated, BackupAgrees;
    RunKeeps(st, handles, ops);
  }

  /** The backup tables repeat the primary ones. */
  ghost predicate BackupsRepeat(luns: seq<Lun>, p: seq<Place>)
    requires PlacesOk(p, luns) && forall l :: 0 <= l < |luns| ==> LunOk(luns[l])
  {
    forall i :: 0 <= i < |p| && p[i].handle.Record? ==>
      var l, k := luns[p[i].lun], p[i].handle.slot;
      && GuidAt(l.bytes, SlotAt(l, true, k)) == GuidAt(l.bytes, SlotAt(l, false, k))
      && AttributesAt(l.bytes, SlotAt(l, true, k)) == AttributesAt(l.bytes, SlotAt(l, false, k))
  }

  /** Loading such a disk brings the backups into agreement with memory, too. */
  lemma LoadAgrees(st: State, handles: seq<seq<Handle>>)
    requires StateOk(st) && Readable(st.luns, AllPlaces(handles)) && BackupsRepeat(st.luns, AllPlaces(handles))
    ensures BackupAgrees(UpdatePartitionEntries(st, handles), PARTITION_ALL)
  {
    var p := AllPlaces(handles);
    var r := UpdatePartitionEntries(st, handles);
    LoadSyncs(st, handles);
    hide Decode, Data1Zero, DiskOrder, TableFits, Loaded, LunOk, GuidAt, AttributesAt, SlotAt, Rank;
    forall i | 0 <= i < r.count && OnDisk(r, i)
      ensures BackupGuid(r, i) == r.mem[i].typeGuid && BackupAttributes(r, i) == r.mem[i].attributes
    {
      OnDiskIsRecord(r, p, i);
      EntryRank(r, p, i);
      assert Holds(r.luns[p[i].lun], p[i].handle.slot, r.bak[i]);
      DecodedFields(r.luns[p[i].lun].bytes, SlotAt(r.luns[p[i].lun], false, p[i].handle.slot), p[i].lun);
    }
  }

  /** Both checksums validate in both copies of every configured LUN. */
  ghost predicate AllSound(luns: seq<Lun>) {
    forall l :: 0 <= l < |luns| && luns[l].Lun? && LunOk(luns[l]) ==> CopySound(luns[l], false) && CopySound(luns[l], true)
  }

  /** All headers declare the 92 bytes that are checksummed. */
  ghost predicate AllPlain(luns: seq<Lun>) {
    forall l :: 0 <= l < |luns| && luns[l].Lun? && LunOk(luns[l]) ==>
      PlainHeader(Header(luns[l], false)) && PlainHeader(Header(luns[l], true))
  }

  /** Valid checksums stay valid over every run. */
  lemma RunKeepsChecksums(st: State, handles: seq<seq<Handle>>, ops: seq<Op>)
    requires Inv(st, AllPlaces(handles)) && AllLegal(ops, handles) && AllSound(st.luns) && AllPlain(st.luns)
    ensures AllSound(Run(st, handles, ops).luns)
  {
    hide Run, InStep, SameTable, Sound, Header, Table;
    RunKeeps(st, handles, ops);
    var r := Run(st, handles, ops);
    forall l | 0 <= l < |r.luns| && r.luns[l].Lun? && LunOk(r.luns[l])
      ensures CopySound(r.luns[l], false) && CopySound(r.luns[l], true)
    {
      assert r.luns[l] == st.luns[l] || LunUpdated(st.luns[l], r.luns[l]);
    }
  }

  /** The suffix of the last SetActiveSlot of the run that succeeded. */
  ghost function LastSet(st: State, handles: seq<seq<Handle>>, ops: seq<Op>): Option<Str16>
    requires Inv(st, AllPlaces(handles)) && AllLegal(ops, handles)
    decreases |ops|
  {
    if ops == [] then None
    else
      var m := Run(st, handles, ops[..|ops| - 1]);
      var op := ops[|ops| - 1];
      if Sets(m, op) then Some(op.suffix)
      else LastSet(st, handles, ops[..|ops| - 1])
  }

  lemma ClearedStaysSettled(mem: seq<Entry>, count: nat, k: nat, s: Str16)
    requires k < count <= |mem| && SettledTable(mem, count, s)
    ensures SettledTable(SetAttributes(mem, k, ClearedUnbootable(mem[k].attributes)), count, s)
  {
    hide ClearedUnbootable, Active, Priority, Successful, Unbootable, FullRetry, OtherBits, BootIndex;
    ClearedBits(mem[k].attributes);
    var t := SetAttributes(mem, k, ClearedUnbootable(mem[k].attributes));
    assert SameNames(mem, t);
    BootIndexKept(mem, t, count, s);
    BootIndexKept(mem, t, count, OtherSuffix(s));
  }

  lemma ClearStaysSettled(st: State, p: seq<Place>, suffix: Str16, s: Str16)
    requires Inv(st, p) && StateOk(st) && Settled(st, s)
    ensures Settled(ClearUnbootable(st, suffix).1, s)
  {
    hide InStep, UpdatePartitionAttributes, ClearedUnbootable, SettledTable, BootIndex;
    var k := BootIndex(st.mem, st.count, suffix);
    if k < st.count {
      ClearedStaysSettled(st.mem, st.count, k, s);
    }
  }

  /** A settled state stays settled until another SetActiveSlot succeeds. */
  lemma StepStaysSettled(st: State, handles: seq<seq<Handle>>, op: Op, s: Str16)
    requires Inv(st, AllPlaces(handles)) && Legal(op, handles) && StateOk(st) && Settled(st, s)
    ensures !Sets(st, op) ==> Settled(Step(st, handles, op), s)
  {
    hide GetActiveSlot, ClearUnbootable, Settle, InStep, Settled;
    SettledTableOf(st, s);
    SettledIsActive(st, s);
    match op
    case GetActive =>
    case SetActive(suffix, resetSuccess, setSuccess) =>
      GetFinds(st);
      RefreshKeeps(st, AllPlaces(handles), suffix, resetSuccess, setSuccess);
    case Clear(suffix) => ClearStaysSettled(st, AllPlaces(handles), suffix, s);
    case Update(ut) => UpdateIdle(st, AllPlaces(handles), ut);
    case Reload => ReloadIdle(st, handles);
  }

  lemma SettledTableOf(st: State, s: Str16)
    requires StateOk(st) && Settled(st, s)
    ensures SettledTable(st.mem, st.count, s)
  {
  }

  /**
   * Once SetActiveSlot(s) has succeeded, GetActiveSlot returns s for the rest of the run,
   * exactly one boot slot is active, priorities are 3 and 2, and the boot LUN follows -
   * until another SetActiveSlot succeeds.
   */
  lemma {:induction false} LastSetIsActive(st: State, handles: seq<seq<Handle>>, ops: seq<Op>)
    requires Inv(st, AllPlaces(handles)) && AllLegal(ops, handles)
    ensures var s := LastSet(st, handles, ops);
      s.Some? && IsSuffix(s.value) ==>
        var r := Run(st, handles, ops);
        Settled(r, s.value) && GetActiveSlot(r) == Found(Success, s.value, r)
    decreases |ops|
  {
    hide InStep, Settled, GetActiveSlot, SetActiveSlot, ClearUnbootable;
    if ops == [] {
    } else {
      var m := Run(st, handles, ops[..|ops| - 1]);
      var op := ops[|ops| - 1];
      LastSetIsActive(st, handles, ops[..|ops| - 1]);
      InvOk(m, AllPlaces(handles));
      var s, s' := LastSet(st, handles, ops), LastSet(st, handles, ops[..|ops| - 1]);
      if Sets(m, op) {
        if IsSuffix(op.suffix) {
          SetSettles(m, op.suffix, op.resetSuccess, op.setSuccess);
        }
      } else if s'.Some? && IsSuffix(s'.value) {
        StepStaysSettled(m, handles, op, s'.value);
      }
      if s.Some? && IsSuffix(s.value) {
        SettledTableOf(Run(st, handles, ops), s.value);
        SettledIsActive(Run(st, handles, ops), s.value);
      }
    }
  }
}
