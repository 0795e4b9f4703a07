/**
 * The two programs that run on the slot engine: the boot driver
 * (GPLDrivers/Drivers/BootSlotDxe/BootSlotDxe.c) and the slot switch application
 * (GPLDrivers/Application/SwitchSlotsApp/SwitchSlotsApp.c).
 */
module SlotDrivers {
  import opened SlotTypes
  import opened SlotSpec
  import opened SlotBits
  import opened GptSync
  import opened SlotSwap
  import opened SlotInvariant
  import opened SlotRuns

  // ---- switching there and back ----

  /** GetActiveSlot changes no type GUID and no name. */
  lemma GetKeepsTypes(st: State)
    requires StateOk(st)
    ensures var r := GetActiveSlot(st).st;
      SameTypes(st.mem, r.mem) && SameNames(st.mem, r.mem) && r == st.(mem := r.mem, bak := r.bak, luns := r.luns)
  {
    hide UpdatePartitionAttributes, FirstBoot, Beats, NeverBooted, BootIndex;
  }

  lemma PartsForKept(st: State, r: State)
    requires StateOk(st) && StateOk(r) && SameNames(st.mem, r.mem) && r.count == st.count
    requires r.parts == st.parts || r.parts == PartsFor(st)
    ensures PartsFor(r) == PartsFor(st)
  {
    PartsListKept(st.mem, r.mem, st.count, st.count);
  }

  lemma SameTypesTrans(a: seq<Entry>, b: seq<Entry>, c: seq<Entry>)
    requires SameTypes(a, b) && SameTypes(b, c)
    ensures SameTypes(a, c)
  {
  }

  lemma SameNamesTrans(a: seq<Entry>, b: seq<Entry>, c: seq<Entry>)
    requires SameNames(a, b) && SameNames(b, c)
    ensures SameNames(a, c)
  {
  }

  lemma MarkedKept(mem: seq<Entry>, count: nat, s: Str16)
    requires count <= |mem|
    ensures SameTypes(mem, MarkedTable(mem, count, s)) && SameNames(mem, MarkedTable(mem, count, s))
  {
    hide Marked, Contains;
  }

  /** What a switch to a slot that is not active leaves. */
  lemma Switched(st: State, s: Str16, resetSuccess: bool, setSuccess: bool)
    requires StateOk(st) && NamesFit(st.mem) && IsSuffix(s)
    requires GetActiveSlot(st).status == Success && GetActiveSlot(st).suffix == OtherSuffix(s)
    ensures var r := SetActiveSlot(st, s, resetSuccess, setSuccess);
      && r.0 == Success && Settled(r.1, s) && NamesFit(r.1.mem)
      && r.1.parts == PartsFor(st) && r.1.count == st.count && r.1.device == st.device
      && r.1.bootLun == (if st.device.Ufs? then SwitchedBootLun(st.bootLun, s) else st.bootLun)
      && SameNames(st.mem, r.1.mem)
      && SameTypes(SwapNodes(st.mem, st.count, PartsFor(st), s), r.1.mem)
  {
    hide UpdatePartitionAttributes, GetActiveSlot, Refresh, SwapNodes, MarkedTable, PartsList, SettledTable, HasPrefix, SameTypes, SameNames, Settled, SwitchedBootLun;
    SetSucceeds(st, s, resetSuccess, setSuccess);
    SetSettles(st, s, resetSuccess, setSuccess);
    GetKeepsTypes(st);
    NamesKeptByGet(st);
    var st1 := GetActiveSlot(st).st;
    var st2 := Refresh(st1, s, resetSuccess, setSuccess).1;
    RefreshedWords(st1, s, resetSuccess, setSuccess);
    OtherIsDifferent(s);
    SameSuffix(s, GetActiveSlot(st).suffix);
    SameTypesTrans(st.mem, st1.mem, st2.mem);
    SameNamesTrans(st.mem, st1.mem, st2.mem);
    PartsForKept(st, st2);
    PartsFit(st2.mem, st2.count, st2.count);
    var t := SwapNodes(st2.mem, st2.count, PartsFor(st2), s);
    SwapNodesKept(st.mem, st2.mem, st.count, PartsFor(st), s);
    SwapNodesPermutes(st2.mem, st2.count, PartsFor(st2), s);
    GuidsKeepNames(st2.mem, t);
    MarkedKept(t, st.count, s);
    SameTypesTrans(SwapNodes(st.mem, st.count, PartsFor(st), s), t, MarkedTable(t, st.count, s));
    SameNamesTrans(st.mem, st2.mem, t);
    SameNamesTrans(st.mem, t, MarkedTable(t, st.count, s));
    NamesFitKept(st.mem, MarkedTable(t, st.count, s));
  }

  lemma NamesFitKept(mem: seq<Entry>, t: seq<Entry>)
    requires NamesFit(mem) && SameNames(mem, t)
    ensures NamesFit(t)
  {
  }

  lemma OtherIsDifferent(s: Str16)
    requires IsSuffix(s)
    ensures IsSuffix(OtherSuffix(s)) && OtherSuffix(s) != s && OtherSuffix(OtherSuffix(s)) == s
  {
    assert SUFFIX_A[1] != SUFFIX_B[1];
  }

  /** Switching to the other slot and back restores every type GUID and the boot LUN. */
  lemma SwitchAndBack(st: State, reset1: bool, set1: bool, reset2: bool, set2: bool)
    requires StateOk(st) && NamesFit(st.mem) && GetActiveSlot(st).status == Success
    requires Clean(st.mem, st.count, PartsFor(st)) && BootLunFollows(st, GetActiveSlot(st).suffix)
    ensures var s := GetActiveSlot(st).suffix;
      var there := SetActiveSlot(st, OtherSuffix(s), reset1, set1);
      there.0 == Success && NamesFit(there.1.mem) &&
      var back := SetActiveSlot(there.1, s, reset2, set2);
      back.0 == Success && Settled(back.1, s) && SameTypes(st.mem, back.1.mem) && back.1.bootLun == st.bootLun
  {
    hide GetActiveSlot, SetActiveSlot, SwapNodes, Clean, SameTypes, SameNames, Settled, PartsFor;
    var s := GetActiveSlot(st).suffix;
    OtherIsDifferent(s);
    Switched(st, OtherSuffix(s), reset1, set1);
    var there := SetActiveSlot(st, OtherSuffix(s), reset1, set1).1;
    SettledTableOf(there, OtherSuffix(s));
    SettledIsActive(there, OtherSuffix(s));
    Switched(there, s, reset2, set2);
    PartsForKept(st, there);
    SwapNodesTwice(st.mem, there.mem, st.count, PartsFor(st), OtherSuffix(s), s);
    var back := SetActiveSlot(there, s, reset2, set2).1;
    SameTypesTrans(st.mem, SwapNodes(there.mem, st.count, PartsFor(st), s), back.mem);
    if st.device.Ufs? {
      BootLunBack(st, s);
    }
  }

  lemma BootLunBack(st: State, s: Str16)
    requires IsSuffix(s) && BootLunFollows(st, s) && st.device.Ufs?
    ensures SwitchedBootLun(SwitchedBootLun(st.bootLun, OtherSuffix(s)), s) == st.bootLun
  {
    SameSuffix(s, SUFFIX_A);
    SameSuffix(s, SUFFIX_B);
    OtherIsDifferent(s);
    SameSuffix(OtherSuffix(s), SUFFIX_A);
    SameSuffix(OtherSuffix(s), SUFFIX_B);
  }

  // ---- which slot is found ----

  /** The slot that the attribute words of boot_a and boot_b make active; empty if none. */
  function Winner(a: bv64, b: bv64): Str16 {
    if Beats(b, if Beats(a, 0) then Priority(a) else 0) then SUFFIX_B else if Beats(a, 0) then SUFFIX_A else []
  }

  lemma GetIs(st: State)
    requires StateOk(st)
    ensures var ka, kb := BootIndex(st.mem, st.count, SUFFIX_A), BootIndex(st.mem, st.count, SUFFIX_B);
      if ka < st.count && kb < st.count then
        var a, b := st.mem[ka].attributes, st.mem[kb].attributes;
        if Winner(a, b) != [] then GetActiveSlot(st) == Found(Success, Winner(a, b), st)
        else if NeverBooted(a) then
          var t := SetAttributes(st.mem, ka, FirstBoot(a));
          GetActiveSlot(st) == Found(Success, SUFFIX_A, UpdatePartitionAttributes(st.(mem := t), PARTITION_ATTRIBUTES))
        else GetActiveSlot(st) == Found(NotFound, [], st)
      else GetActiveSlot(st).status == NotFound && GetActiveSlot(st).st == st
  {
    hide Beats, NeverBooted, FirstBoot, Priority, UpdatePartitionAttributes, BootIndex, SetAttributes;
  }

  /** A first boot makes slot _a the active one. */
  lemma FirstBootWins(a: bv64, b: bv64)
    requires Winner(a, b) == []
    ensures Winner(FirstBoot(a), b) == SUFFIX_A
  {
    hide FirstBoot, Active, Priority, Successful, Unbootable, FullRetry, OtherBits;
    FirstBootBits(a);
  }

  lemma BeatsSame(a: bv64, a': bv64, priority: bv64)
    requires Active(a) == Active(a') && Priority(a) == Priority(a')
    ensures Beats(a', priority) == Beats(a, priority)
  {
    hide Active, Priority, Above;
  }

  /** Looking at Active and Priority only. */
  lemma WinnerOf(a: bv64, b: bv64, a': bv64, b': bv64)
    requires Active(a) == Active(a') && Priority(a) == Priority(a') && Active(b) == Active(b') && Priority(b) == Priority(b')
    ensures Winner(a', b') == Winner(a, b)
  {
    hide Active, Priority, Beats;
    BeatsSame(a, a', 0);
    BeatsSame(b, b', if Beats(a, 0) then Priority(a) else 0);
  }

  /** Asking again gives the same answer and changes nothing. */
  lemma GetAgain(st: State)
    requires StateOk(st) && GetActiveSlot(st).status == Success
    ensures GetActiveSlot(GetActiveSlot(st).st) == GetActiveSlot(st)
  {
    hide Winner, NeverBooted, FirstBoot, UpdatePartitionAttributes, BootIndex, GetActiveSlot;
    GetIs(st);
    GetFinds(st);
    var r := GetActiveSlot(st).st;
    GetIs(r);
    var ka, kb := BootIndex(st.mem, st.count, SUFFIX_A), BootIndex(st.mem, st.count, SUFFIX_B);
    OtherIsDifferent(SUFFIX_A);
    TwoBootEntries(st.mem, st.count, SUFFIX_A);
    var a, b := st.mem[ka].attributes, st.mem[kb].attributes;
    if Winner(a, b) == [] {
      FirstBootWins(a, b);
    }
  }

  // ---- starting an engine ----

  predicate Startable(device: Device, luns: seq<Lun>, handles: seq<seq<Handle>>) {
    && (forall l :: 0 <= l < |luns| ==> LunOk(luns[l]))
    && (device.Emmc? ==> |luns| <= 1)
    && PlacesOk(AllPlaces(handles), luns)
    && NamesFit(Loaded(AllPlaces(handles), luns))
  }

  /** The engine after UpdatePartitionEntries. */
  function Load(device: Device, bootLun: nat, luns: seq<Lun>, handles: seq<seq<Handle>>): (st: State)
    requires Startable(device, luns, handles)
    ensures StateOk(st) && NamesFit(st.mem)
    ensures st.device == device && st.bootLun == bootLun && st.luns == luns && st.parts == []
  {
    UpdatePartitionEntries(Fresh(device, bootLun, luns), handles)
  }

  /** A program started on what another left loads the table that one had in memory. */
  lemma LoadAgain(st: State, handles: seq<seq<Handle>>)
    requires InStep(st, AllPlaces(handles)) && NamesFit(st.mem)
    ensures Startable(st.device, st.luns, handles)
    ensures Load(st.device, st.bootLun, st.luns, handles) == st.(parts := [])
  {
    hide Loaded;
    ReloadIdle(st, handles);
  }

  /** GetCurrentSlotSuffix. */
  function GetCurrentSlotSuffix(st: State): (r: Found)
    requires StateOk(st)
    ensures StateOk(r.st)
  {
    if PartitionHasMultiSlot(st, BOOT) then GetActiveSlot(st) else Found(NotFound, [], st)
  }

  // ---- the boot driver ----

  /** One turn of the loop that clears unbootable bits. */
  function Rescue(st: State, slot: Str16): (r: State)
    requires StateOk(st)
    ensures StateOk(r)
    ensures NamesFit(st.mem) ==> NamesFit(r.mem)
  {
    if IsSlotBootable(st, slot) then st else ClearUnbootable(st, slot).1
  }

  /** The slot the driver refreshes. */
  function Chosen(suffix: Str16): Str16 {
    if suffix == [] then SUFFIX_A else suffix
  }

  /** The driver's work once A/B slots are known to be supported. */
  function BootSlotRefresh(st: State): (r: (Status, State))
    requires StateOk(st) && NamesFit(st.mem)
    ensures StateOk(r.1)
  {
    var current := GetCurrentSlotSuffix(st);
    NamesKeptByGet(st);
    SetActiveSlot(Rescue(Rescue(current.st, SUFFIX_A), SUFFIX_B), Chosen(current.suffix), false, true)
  }

  /** BootSlotMain, for partitions that could be enumerated. */
  function BootSlotMain(device: Device, bootLun: nat, luns: seq<Lun>, handles: seq<seq<Handle>>): (r: (Status, State))
    requires Startable(device, luns, handles)
    ensures StateOk(r.1)
  {
    if device.UnknownDevice? then (Success, Fresh(device, bootLun, luns))
    else
      var st := Load(device, bootLun, luns, handles);
      if !PartitionHasMultiSlot(st, BOOT) then (Success, st) else BootSlotRefresh(st)
  }

  /** The words the driver leaves: nothing unbootable, the chosen slot active and successful, nothing left to do. */
  predicate Refreshed(mem: seq<Entry>, count: nat, s: Str16)
    requires count <= |mem|
  {
    var k, o := BootIndex(mem, count, s), BootIndex(mem, count, OtherSuffix(s));
    && SettledTable(mem, count, s)
    && !Unbootable(mem[k].attributes) && Successful(mem[k].attributes) && FullRetry(mem[k].attributes)
    && !Unbootable(mem[o].attributes) && (Successful(mem[o].attributes) || FullRetry(mem[o].attributes))
    && Demoted(mem[o].attributes) == mem[o].attributes
  }

  /** A slot that the loop has no more work for. */
  predicate Rescued(mem: seq<Entry>, count: nat, slot: Str16)
    requires count <= |mem|
  {
    var k := BootIndex(mem, count, slot);
    k < count ==> !Unbootable(mem[k].attributes) && (Successful(mem[k].attributes) || FullRetry(mem[k].attributes))
  }

  /** Two words claim the active slot in the same way. */
  predicate SameClaim(a: bv64, b: bv64) {
    Active(a) == Active(b) && Priority(a) == Priority(b)
  }

  /** The table after one turn: at most the slot's own word changes, and it is rescued. */
  lemma RescueWords(st: State, p: seq<Place>, slot: Str16)
    requires Inv(st, p) && StateOk(st)
    ensures var r := Rescue(st, slot);
      var k := BootIndex(st.mem, st.count, slot);
      && Inv(r, p) && Kept(st, r) && r.bootLun == st.bootLun && r.parts == st.parts && r.count == st.count
      && SameNames(st.mem, r.mem) && SameTypes(st.mem, r.mem)
      && (forall i :: 0 <= i < |st.mem| && i != k ==> r.mem[i] == st.mem[i])
      && (k < st.count ==> SameClaim(st.mem[k].attributes, r.mem[k].attributes))
      && Rescued(r.mem, r.count, slot)
  {
    hide Inv, Kept, ClearUnbootable, ClearedUnbootable, Active, Priority, Successful, Unbootable, FullRetry, OtherBits;
    var k := BootIndex(st.mem, st.count, slot);
    KeptRefl(st);
    if !IsSlotBootable(st, slot) {
      ClearKeeps(st, p, slot);
      if k < st.count {
        ClearedBits(st.mem[k].attributes);
      }
      var r := Rescue(st, slot);
      KeptCount(st, r);
      BootIndexKept(st.mem, r.mem, st.count, slot);
    }
  }

  lemma KeptCount(st: State, r: State)
    requires Kept(st, r)
    ensures r.count == st.count && r.device == st.device && SameNames(st.mem, r.mem)
  {
    hide AllUpdated;
    SameTableNames(st.mem, r.mem);
  }

  /** The words of boot_a and boot_b. */
  function WordA(st: State): bv64
    requires StateOk(st) && BootIndex(st.mem, st.count, SUFFIX_A) < st.count
  {
    st.mem[BootIndex(st.mem, st.count, SUFFIX_A)].attributes
  }

  function WordB(st: State): bv64
    requires StateOk(st) && BootIndex(st.mem, st.count, SUFFIX_B) < st.count
  {
    st.mem[BootIndex(st.mem, st.count, SUFFIX_B)].attributes
  }

  predicate BothFound(st: State)
    requires StateOk(st)
  {
    BootIndex(st.mem, st.count, SUFFIX_A) < st.count && BootIndex(st.mem, st.count, SUFFIX_B) < st.count
  }

  function RescueBoth(st: State): (r: State)
    requires StateOk(st)
    ensures StateOk(r)
    ensures NamesFit(st.mem) ==> NamesFit(r.mem)
  {
    Rescue(Rescue(st, SUFFIX_A), SUFFIX_B)
  }

  lemma RescueBothWords(st: State, p: seq<Place>)
    requires Inv(st, p) && StateOk(st)
    ensures var r := RescueBoth(st);
      && Inv(r, p) && Kept(st, r) && r.bootLun == st.bootLun && r.parts == st.parts && r.count == st.count
      && SameNames(st.mem, r.mem) && SameTypes(st.mem, r.mem)
      && (BothFound(st) <==> BothFound(r))
      && (BothFound(st) ==> SameClaim(WordA(st), WordA(r)) && SameClaim(WordB(st), WordB(r)))
      && Rescued(r.mem, r.count, SUFFIX_A) && Rescued(r.mem, r.count, SUFFIX_B)
  {
    hide Inv, Kept, Rescue, SameTypes, SameNames, Active, Priority, Unbootable, Successful, FullRetry, BootIndex;
    var m := Rescue(st, SUFFIX_A);
    RescueWords(st, p, SUFFIX_A);
    RescueWords(m, p, SUFFIX_B);
    var r := RescueBoth(st);
    KeptTrans(st, m, r);
    SameNamesTrans(st.mem, m.mem, r.mem);
    SameTypesTrans(st.mem, m.mem, r.mem);
    BootIndexKept(st.mem, m.mem, st.count, SUFFIX_A);
    BootIndexKept(st.mem, m.mem, st.count, SUFFIX_B);
    BootIndexKept(st.mem, r.mem, st.count, SUFFIX_A);
    BootIndexKept(st.mem, r.mem, st.count, SUFFIX_B);
    OtherIsDifferent(SUFFIX_A);
    TwoBootEntries(st.mem, st.count, SUFFIX_A);
  }

  /** The chosen slot is the one SetActiveSlot will find active. */
  lemma ChosenIsCurrent(st: State, p: seq<Place>)
    requires Inv(st, p) && StateOk(st)
    requires GetActiveSlot(RescueBoth(GetActiveSlot(st).st)).status == Success
    ensures GetActiveSlot(RescueBoth(GetActiveSlot(st).st)).suffix == Chosen(GetActiveSlot(st).suffix)
  {
    hide Inv, Kept, Rescue, SameTypes, SameNames, BootIndex, NeverBooted, FirstBoot, GetActiveSlot, Winner, RescueBoth, Active, Priority, Unbootable, Successful, FullRetry, UpdatePartitionAttributes, Rescued;
    GetKeeps(st, p);
    var st1 := GetActiveSlot(st).st;
    RescueBothWords(st1, p);
    var r := RescueBoth(st1);
    GetIs(st);
    GetIs(r);
    GetKeepsTypes(st);
    BootIndexKept(st.mem, st1.mem, st.count, SUFFIX_A);
    BootIndexKept(st.mem, st1.mem, st.count, SUFFIX_B);
    if BothFound(r) {
      WinnerOf(WordA(st1), WordB(st1), WordA(r), WordB(r));
      OtherIsDifferent(SUFFIX_A);
      TwoBootEntries(st.mem, st.count, SUFFIX_A);
      if Winner(WordA(st), WordB(st)) == [] {
        FirstBootWins(WordA(st), WordB(st));
      }
    }
  }

  /** A first boot leaves a rescued slot. */
  lemma GetRescued(st: State)
    requires StateOk(st) && GetActiveSlot(st).status == Success
    requires Rescued(st.mem, st.count, SUFFIX_A) && Rescued(st.mem, st.count, SUFFIX_B)
    ensures var r := GetActiveSlot(st).st; Rescued(r.mem, r.count, SUFFIX_A) && Rescued(r.mem, r.count, SUFFIX_B)
  {
    hide Winner, NeverBooted, FirstBoot, UpdatePartitionAttributes, BootIndex, GetActiveSlot, Active, Priority, Unbootable, Successful, FullRetry, OtherBits;
    GetIs(st);
    GetFinds(st);
    FirstBootBits(st.mem[BootIndex(st.mem, st.count, SUFFIX_A)].attributes);
  }

  /** SetActiveSlot of the slot that is active already: a refresh and the boot LUN. */
  lemma SetCurrent(st: State, s: Str16)
    requires StateOk(st) && NamesFit(st.mem) && IsSuffix(s)
    requires GetActiveSlot(st).status == Success && GetActiveSlot(st).suffix == s
    ensures NamesFit(GetActiveSlot(st).st.mem)
    ensures var m := Refresh(GetActiveSlot(st).st, s, false, true);
      && m.0 == Success
      && SetActiveSlot(st, s, false, true) ==
           (Success, m.1.(bootLun := if m.1.device.Ufs? then SwitchedBootLun(m.1.bootLun, s) else m.1.bootLun))
  {
    hide GetActiveSlot, Refresh, SwitchPtnSlots, MarkPtnActive, HasPrefix, SwitchedBootLun;
    NamesKeptByGet(st);
    SetSucceeds(st, s, false, true);
    SameSuffix(s, s);
  }

  /** The words that refreshing a rescued slot leaves. */
  lemma RefreshLeaves(st: State, s: Str16)
    requires StateOk(st) && IsSuffix(s) && Refresh(st, s, false, true).0 == Success
    requires Rescued(st.mem, st.count, SUFFIX_A) && Rescued(st.mem, st.count, SUFFIX_B)
    ensures var r := Refresh(st, s, false, true).1;
      Refreshed(r.mem, r.count, s) && SameTypes(st.mem, r.mem) && r.parts == st.parts && r.device == st.device && r.bootLun == st.bootLun
  {
    hide Refresh, Activated, Demoted, Active, Priority, Unbootable, Successful, FullRetry, OtherBits, BootIndex, SettledTable, SameTypes;
    var r := Refresh(st, s, false, true).1;
    RefreshedWords(st, s, false, true);
    RefreshSettles(st, s, false, true);
    var k, o := BootIndex(st.mem, st.count, s), BootIndex(st.mem, st.count, OtherSuffix(s));
    BootIndexKept(st.mem, r.mem, st.count, s);
    BootIndexKept(st.mem, r.mem, st.count, OtherSuffix(s));
    ActivatedBits(st.mem[k].attributes, false, true);
    DemotedBits(st.mem[o].attributes);
    DemotedAgain(st.mem[o].attributes);
  }

  /**
   * When the boot driver's SetActiveSlot succeeds, neither boot slot is unbootable, the
   * chosen slot is active and successful, no type GUID has moved, the boot LUN follows.
   */
  lemma BootSlotSettles(st: State, p: seq<Place>)
    requires Inv(st, p) && StateOk(st) && NamesFit(st.mem) && PartitionHasMultiSlot(st, BOOT) && BootSlotRefresh(st).0 == Success
    ensures var r, s := BootSlotRefresh(st).1, Chosen(GetActiveSlot(st).suffix);
      && Refreshed(r.mem, r.count, s) && SameTypes(st.mem, r.mem) && BootLunFollows(r, s)
      && Inv(r, p) && Kept(st, r) && r.parts == st.parts
  {
    hide Inv, Kept, SameTypes, SameNames, GetActiveSlot, SetActiveSlot, RescueBoth, Rescued, Refreshed, Refresh, BootLunFollows, BootIndex, PartitionHasMultiSlot, SwitchedBootLun;
    var s := Chosen(GetActiveSlot(st).suffix);
    var st1 := GetActiveSlot(st).st;
    NamesKeptByGet(st);
    GetKeeps(st, p);
    GetKeepsTypes(st);
    RescueBothWords(st1, p);
    var st3 := RescueBoth(st1);
    RescueBothIs(st1);
    SuffixFits(s, p);
    SetSucceeds(st3, s, false, true);
    ChosenIsCurrent(st, p);
    SetCurrent(st3, s);
    SetKeeps(st3, p, s, false, true);
    var st4 := GetActiveSlot(st3).st;
    GetRescued(st3);
    GetKeepsTypes(st3);
    var st5 := Refresh(st4, s, false, true).1;
    RefreshLeaves(st4, s);
    BootLunSet(st5, s);
    var r := BootSlotRefresh(st).1;
    KeptTrans(st, st1, st3);
    KeptTrans(st, st3, r);
    SameTypesTrans(st.mem, st1.mem, st3.mem);
    SameTypesTrans(st.mem, st3.mem, st4.mem);
    SameTypesTrans(st.mem, st4.mem, st5.mem);
  }

  lemma SuffixFits(s: Str16, p: seq<Place>)
    requires IsSuffix(s)
    ensures SuffixLegal(s, p)
  {
  }

  lemma RescueBothIs(st: State)
    requires StateOk(st)
    ensures RescueBoth(st) == Rescue(Rescue(st, SUFFIX_A), SUFFIX_B)
  {
  }

  // ---- the boot driver again ----

  lemma SameAttributes(mem: seq<Entry>, k: nat)
    requires k < |mem|
    ensures SetAttributes(mem, k, mem[k].attributes) == mem
  {
  }

  /** The loop has nothing to do for a rescued slot. */
  lemma RescueIdle(st: State, p: seq<Place>, slot: Str16)
    requires InStep(st, p) && Rescued(st.mem, st.count, slot)
    requires BootIndex(st.mem, st.count, slot) < st.count
    ensures Rescue(st, slot) == st
  {
    var k := BootIndex(st.mem, st.count, slot);
    assert StateOk(st);
    hide InStep, ClearedUnbootable, UpdatePartitionAttributes, SetAttributes, Unbootable, Successful, FullRetry, BootIndex;
    UpdateIdle(st, p, PARTITION_ATTRIBUTES);
    if !IsSlotBootable(st, slot) {
      ClearedAgain(st.mem[k].attributes);
      SameAttributes(st.mem, k);
      assert st.(mem := st.mem) == st;
    }
  }

  lemma RefreshedWordsStay(mem: seq<Entry>, count: nat, s: Str16)
    requires count <= |mem| && Refreshed(mem, count, s)
    ensures var k, o := BootIndex(mem, count, s), BootIndex(mem, count, OtherSuffix(s));
      && IsSuffix(s) && k < count && o < count
      && Activated(mem[k].attributes, false, true) == mem[k].attributes && Demoted(mem[o].attributes) == mem[o].attributes
  {
    hide Activated, Demoted, Active, Priority, Unbootable, Successful, FullRetry, BootIndex;
    ActivatedAgain(mem[BootIndex(mem, count, s)].attributes);
  }

  lemma StepOk(st: State, p: seq<Place>)
    requires InStep(st, p)
    ensures StateOk(st) && st.count <= |st.mem|
  {
  }

  /** Refreshing a refreshed table changes nothing. */
  lemma RefreshIdle(st: State, p: seq<Place>, s: Str16)
    requires InStep(st, p) && Refreshed(st.mem, st.count, s)
    ensures Refresh(st, s, false, true) == (Success, st)
  {
    StepOk(st, p);
    InactiveIs(s);
    hide InStep, Refreshed, Activated, Demoted, UpdatePartitionAttributes, SetAttributes, BootIndex, StateOk;
    UpdateIdle(st, p, PARTITION_ATTRIBUTES);
    RefreshedWordsStay(st.mem, st.count, s);
    SameAttributes(st.mem, BootIndex(st.mem, st.count, s));
    SameAttributes(st.mem, BootIndex(st.mem, st.count, OtherSuffix(s)));
    assert st.(mem := st.mem) == st;
  }

  lemma BootLunStays(st: State, s: Str16)
    requires IsSuffix(s) && BootLunFollows(st, s) && st.device.Ufs?
    ensures SwitchedBootLun(st.bootLun, s) == st.bootLun
  {
    SameSuffix(s, SUFFIX_A);
    SameSuffix(s, SUFFIX_B);
  }

  /** The driver run on a refreshed table in step returns that very state: nothing is written. */
  lemma BootSlotIdle(st: State, p: seq<Place>, s: Str16)
    requires Inv(st, p) && StateOk(st) && NamesFit(st.mem) && PartitionHasMultiSlot(st, BOOT)
    requires Refreshed(st.mem, st.count, s) && BootLunFollows(st, s)
    ensures BootSlotRefresh(st) == (Success, st)
  {
    hide GetActiveSlot, SetActiveSlot, Rescue, Refresh, Rescued, BootIndex, PartitionHasMultiSlot, InStep, SwitchedBootLun, BootLunFollows, Demoted;
    InvInStep(st, p);
    SettledIsActive(st, s);
    RefreshedIsRescued(st, s);
    RescueIdle(st, p, SUFFIX_A);
    RescueIdle(st, p, SUFFIX_B);
    RefreshIdle(st, p, s);
    SetCurrent(st, s);
    if st.device.Ufs? {
      BootLunStays(st, s);
    }
    assert st.(bootLun := st.bootLun) == st;
  }

  lemma InvInStep(st: State, p: seq<Place>)
    requires Inv(st, p)
    ensures InStep(st, p)
  {
  }

  lemma RefreshedIsRescued(st: State, s: Str16)
    requires StateOk(st) && Refreshed(st.mem, st.count, s)
    ensures Rescued(st.mem, st.count, SUFFIX_A) && Rescued(st.mem, st.count, SUFFIX_B) && BothFound(st)
  {
    hide Demoted, Active, Priority, Unbootable, Successful, FullRetry, BootIndex;
    OtherIsDifferent(s);
  }

  lemma {:induction false} SlotCountKept(mem: seq<Entry>, t: seq<Entry>, count: nat, name: Str16)
    requires count <= |mem| && SameNames(mem, t)
    ensures SlotCount(t, count, name) == SlotCount(mem, count, name)
  {
    if count > 0 {
      SlotCountKept(mem, t, count - 1, name);
    }
  }

  /**
   * The boot driver run once more, on the disk and boot LUN it left, ends in the state it
   * ended in before: no attribute changes and no block is written.
   */
  lemma BootSlotAgain(device: Device, bootLun: nat, luns: seq<Lun>, handles: seq<seq<Handle>>)
    requires Startable(device, luns, handles) && GoodDisk(luns, AllPlaces(handles)) && !device.UnknownDevice?
    requires BootSlotMain(device, bootLun, luns, handles).0 == Success
    ensures var r := BootSlotMain(device, bootLun, luns, handles).1;
      && Startable(device, r.luns, handles)
      && BootSlotMain(device, r.bootLun, r.luns, handles) == (Success, r)
  {
    hide InStep, BootSlotRefresh, PartitionHasMultiSlot, GoodDisk, Refreshed, GetActiveSlot, Startable, BootLunFollows;
    var p := AllPlaces(handles);
    var st := Load(device, bootLun, luns, handles);
    LoadedInv(device, bootLun, luns, handles);
    InvInStep(st, p);
    LoadAgain(st, handles);
    if PartitionHasMultiSlot(st, BOOT) {
      BootSlotSettles(st, p);
      var r := BootSlotRefresh(st).1;
      InvInStep(r, p);
      InvOk(r, p);
      LoadAgain(r, handles);
      MultiSlotKept(st, r);
      BootSlotIdle(r, p, Chosen(GetActiveSlot(st).suffix));
    }
    assert st.(parts := []) == st;
  }

  lemma MultiSlotKept(st: State, r: State)
    requires StateOk(st) && StateOk(r) && Kept(st, r)
    ensures PartitionHasMultiSlot(r, BOOT) == PartitionHasMultiSlot(st, BOOT)
  {
    KeptCount(st, r);
    SlotCountKept(st.mem, r.mem, st.count, BOOT);
  }

  lemma LoadedInv(device: Device, bootLun: nat, luns: seq<Lun>, handles: seq<seq<Handle>>)
    requires Startable(device, luns, handles) && GoodDisk(luns, AllPlaces(handles)) && !device.UnknownDevice?
    ensures Inv(Load(device, bootLun, luns, handles), AllPlaces(handles))
  {
    hide InStep, Readable, Accepting, UpdatePartitionEntries;
    LoadSyncs(Fresh(device, bootLun, luns), handles);
  }

  // ---- the slot switch application ----

  /** SwitchSlotsAppEntryPoint up to the reset, for partitions that could be enumerated. */
  function SwitchSlots(device: Device, bootLun: nat, luns: seq<Lun>, handles: seq<seq<Handle>>): (r: (Status, State))
    requires Startable(device, luns, handles)
    ensures StateOk(r.1)
  {
    if device.UnknownDevice? then (Unsupported, Fresh(device, bootLun, luns))
    else
      var st := Load(device, bootLun, luns, handles);
      var current := GetCurrentSlotSuffix(st);
      NamesKeptByGet(st);
      if !PartitionHasMultiSlot(st, BOOT) then (Unsupported, st)
      else if current.suffix == [] then (NotReady, current.st)
      else
        var r := SetActiveSlot(current.st, Inactive(current.suffix), true, false);
        if r.0 != Success then r
        else (Success, UpdatePartitionAttributes(UpdatePartitionAttributes(r.1, PARTITION_GUID), PARTITION_ATTRIBUTES))
  }

  /** The application succeeds exactly on a known A/B device with an active slot. */
  lemma SwitchSlotsSucceeds(device: Device, bootLun: nat, luns: seq<Lun>, handles: seq<seq<Handle>>)
    requires Startable(device, luns, handles)
    ensures var st := Load(device, bootLun, luns, handles);
      SwitchSlots(device, bootLun, luns, handles).0 == Success <==>
        !device.UnknownDevice? && PartitionHasMultiSlot(st, BOOT) && GetActiveSlot(st).status == Success
  {
    hide Load, PartitionHasMultiSlot, GetActiveSlot, SetActiveSlot, Startable, UpdatePartitionAttributes;
    var st := Load(device, bootLun, luns, handles);
    var current := GetActiveSlot(st);
    NamesKeptByGet(st);
    if current.suffix != [] {
      InactiveIs(current.suffix);
      SetSucceeds(current.st, Inactive(current.suffix), true, false);
      if current.status == Success {
        GetAgain(st);
      } else {
        NotFoundAgain(st);
      }
    }
  }

  /** A failing GetActiveSlot leaves the state as it is. */
  lemma NotFoundAgain(st: State)
    requires StateOk(st) && GetActiveSlot(st).status != Success
    ensures GetActiveSlot(st).st == st
  {
    hide UpdatePartitionAttributes, BootIndex, Beats, NeverBooted, FirstBoot;
  }

  /** What one successful run of the application does. */
  lemma SwitchSlotsRun(device: Device, bootLun: nat, luns: seq<Lun>, handles: seq<seq<Handle>>)
    requires Startable(device, luns, handles) && GoodDisk(luns, AllPlaces(handles))
    requires SwitchSlots(device, bootLun, luns, handles).0 == Success
    ensures var st, r := Load(device, bootLun, luns, handles), SwitchSlots(device, bootLun, luns, handles).1;
      var s := GetActiveSlot(st).suffix;
      && IsSuffix(s) && Inv(r, AllPlaces(handles)) && Kept(st, r)
      && Settled(r, OtherSuffix(s)) && PartitionHasMultiSlot(r, BOOT)
      && r.bootLun == (if device.Ufs? then SwitchedBootLun(bootLun, OtherSuffix(s)) else bootLun)
      && SameTypes(SwapNodes(st.mem, st.count, PartsList(st.mem, st.count, st.count), OtherSuffix(s)), r.mem)
  {
    SwitchSlotsSucceeds(device, bootLun, luns, handles);
    LoadedInv(device, bootLun, luns, handles);
    var st := Load(device, bootLun, luns, handles);
    hide GoodDisk, Load, Startable, PartitionHasMultiSlot, GetActiveSlot, SetActiveSlot, UpdatePartitionAttributes, Settled, Inv, Kept, SwitchedBootLun, SameTypes, SameNames, PartsList, SwapNodes;
    var p := AllPlaces(handles);
    var current := GetActiveSlot(st);
    var s := current.suffix;
    GetAgain(st);
    GetKeeps(st, p);
    GetKeepsTypes(st);
    NamesKeptByGet(st);
    InactiveIs(s);
    OtherIsDifferent(s);
    SuffixFits(OtherSuffix(s), p);
    Switched(current.st, OtherSuffix(s), true, false);
    SetKeeps(current.st, p, OtherSuffix(s), true, false);
    var r := SetActiveSlot(current.st, OtherSuffix(s), true, false).1;
    InvInStep(r, p);
    UpdateIdle(r, p, PARTITION_GUID);
    UpdateIdle(r, p, PARTITION_ATTRIBUTES);
    KeptTrans(st, current.st, r);
    MultiSlotKept(st, r);
    PartsForKept(st, current.st);
    SwapNodesKept(st.mem, current.st.mem, st.count, PartsFor(st), OtherSuffix(s));
    SameTypesTrans(SwapNodes(st.mem, st.count, PartsFor(st), OtherSuffix(s)),
                   SwapNodes(current.st.mem, st.count, PartsFor(st), OtherSuffix(s)), r.mem);
  }

  /**
   * The application is a toggle: started again on the disk and boot LUN it left, it makes
   * the first slot active again and restores every type GUID and the boot LUN.
   */
  lemma SwitchSlotsToggles(device: Device, bootLun: nat, luns: seq<Lun>, handles: seq<seq<Handle>>)
    requires Startable(device, luns, handles) && GoodDisk(luns, AllPlaces(handles))
    requires var st := Load(device, bootLun, luns, handles);
      Clean(st.mem, st.count, PartsList(st.mem, st.count, st.count)) && BootLunFollows(st, GetActiveSlot(st).suffix)
    requires SwitchSlots(device, bootLun, luns, handles).0 == Success
    ensures var st, there := Load(device, bootLun, luns, handles), SwitchSlots(device, bootLun, luns, handles).1;
      var s := GetActiveSlot(st).suffix;
      && Startable(device, there.luns, handles)
      && GetActiveSlot(there) == Found(Success, OtherSuffix(s), there)
      && var (status, back) := SwitchSlots(device, there.bootLun, there.luns, handles);
      && status == Success && GetActiveSlot(back) == Found(Success, s, back)
      && SameTypes(st.mem, back.mem) && back.bootLun == bootLun
  {
    SwitchSlotsRun(device, bootLun, luns, handles);
    var st, there := Load(device, bootLun, luns, handles), SwitchSlots(device, bootLun, luns, handles).1;
    hide GoodDisk, Load, Startable, PartitionHasMultiSlot, GetActiveSlot, SwitchSlots, Settled, Inv, Kept, SwitchedBootLun, SameTypes, SameNames, PartsList, SwapNodes, Clean, BootLunFollows;
    var p := AllPlaces(handles);
    var s := GetActiveSlot(st).suffix;
    OtherIsDifferent(s);
    InvInStep(there, p);
    InvOk(there, p);
    SettledTableOf(there, OtherSuffix(s));
    SettledIsActive(there, OtherSuffix(s));
    LoadAgain(there, handles);
    InvGood(there, p);
    var again := Load(device, there.bootLun, there.luns, handles);
    KeptCount(st, there);
    LoadedShape(device, bootLun, luns, handles);
    ListIsForgotten(there, OtherSuffix(s));
    SwitchSlotsSucceeds(device, there.bootLun, there.luns, handles);
    SwitchSlotsRun(device, there.bootLun, there.luns, handles);
    PartsListKept(st.mem, there.mem, st.count, st.count);
    var parts := PartsList(st.mem, st.count, st.count);
    SwapNodesTwice(st.mem, there.mem, st.count, parts, OtherSuffix(s), s);
    var back := SwitchSlots(device, there.bootLun, there.luns, handles).1;
    SettledTableOf(back, s);
    SettledIsActive(back, s);
    SameTypesTrans(st.mem, SwapNodes(there.mem, st.count, parts, s), back.mem);
    if device.Ufs? {
      BootLunBack(st, s);
    }
  }

  lemma LoadedShape(device: Device, bootLun: nat, luns: seq<Lun>, handles: seq<seq<Handle>>)
    requires Startable(device, luns, handles)
    ensures var st := Load(device, bootLun, luns, handles); st.device == device && st.bootLun == bootLun && st.luns == luns
  {
    hide Startable;
  }

  /** The list plays no part in finding the active slot. */
  lemma ListIsForgotten(st: State, s: Str16)
    requires StateOk(st) && SettledTable(st.mem, st.count, s)
    ensures var r := st.(parts := []); GetActiveSlot(r) == Found(Success, s, r)
    ensures PartitionHasMultiSlot(st.(parts := []), BOOT) == PartitionHasMultiSlot(st, BOOT)
  {
    hide SettledTable;
    SettledIsActive(st.(parts := []), s);
  }

  /** The disk of a state between operations is one the engine may be started on. */
  lemma InvGood(st: State, p: seq<Place>)
    requires Inv(st, p)
    ensures GoodDisk(st.luns, p)
  {
    hide Decode, Data1Zero, DiskOrder, GuidAt, AttributesAt, SlotAt, Accepting;
    forall i | 0 <= i < |p| && p[i].handle.Record?
      ensures !Data1Zero(StoredGuid(st.luns[p[i].lun], p[i].handle.slot))
    {
      assert Holds(st.luns[p[i].lun], p[i].handle.slot, st.bak[i]);
      assert Fits(st.bak[i], p[i]);
      DecodedFields(st.luns[p[i].lun].bytes, SlotAt(st.luns[p[i].lun], false, p[i].handle.slot), p[i].lun);
    }
  }
}
