/**
 * Suffixes that SetActiveSlot takes without their naming a slot (PartitionTableUpdate.c,
 * lines 683-716 and 872-976): the search for a boot partition compares over the suffix's
 * length only.
 */
module SlotSuffix {
  import opened SlotTypes
  import opened SlotSpec
  import opened SlotBits
  import opened GptSync
  import opened SlotSwap
  import opened SlotInvariant
  import opened SlotRuns
  import opened SlotDrivers

  /** The suffix is taken for _a or _b. */
  predicate TakenForSlot(s: Str16) {
    HasPrefix(SUFFIX_A, s) || HasPrefix(SUFFIX_B, s)
  }

  /** SetActiveSlot succeeds exactly if there is an active slot to start from and the suffix begins one. */
  lemma SetAccepts(st: State, s: Str16, resetSuccess: bool, setSuccess: bool)
    requires StateOk(st) && NamesFit(st.mem)
    ensures SetActiveSlot(st, s, resetSuccess, setSuccess).0 == Success <==> GetActiveSlot(st).status == Success && TakenForSlot(s)
  {
    hide UpdatePartitionAttributes, GetActiveSlot, Settle, Activated, Demoted, IndexFrom;
    NamesKeptByGet(st);
    if GetActiveSlot(st).status == Success {
      GetFinds(st);
      var st1 := GetActiveSlot(st).st;
      var k := BootIndex(st1.mem, st1.count, s);
      if k < st1.count {
        var mem2 := SetAttributes(st1.mem, k, Activated(st1.mem[k].attributes, resetSuccess, setSuccess));
        assert SameNames(st1.mem, mem2);
        BootIndexKept(st1.mem, mem2, st1.count, Inactive(s));
      }
    }
  }

  /** Suffixes that begin both slots' suffixes. */
  predicate Ambiguous(s: Str16) {
    s == [] || s == [UNDERSCORE]
  }

  lemma AmbiguousIs(s: Str16)
    requires Ambiguous(s)
    ensures HasPrefix(SUFFIX_A, s) && Inactive(s) == SUFFIX_A && !HasPrefix(s, SUFFIX_A) && !HasPrefix(s, SUFFIX_B)
    ensures Contains(BOOT_A, s) && Contains(BOOT_B, s)
  {
    assert HasPrefix(BOOT_A[4..], s) && HasPrefix(BOOT_B[4..], s);
  }

  /** The words of the two boot slots after Refresh: boot_a is activated and demoted at once. */
  lemma AmbiguousRefresh(st: State, s: Str16, resetSuccess: bool, setSuccess: bool)
    requires StateOk(st) && Ambiguous(s) && BothFound(st)
    ensures var r := Refresh(st, s, resetSuccess, setSuccess);
      && r.0 == Success && r.1.count == st.count && SameNames(st.mem, r.1.mem) && BothFound(r.1)
      && Priority(WordA(r.1)) == 2 && WordB(r.1) == WordB(st)
  {
    hide UpdatePartitionAttributes, Activated, Demoted, Priority, Active, FullRetry, Unbootable, Successful, OtherBits, IndexFrom;
    AmbiguousIs(s);
    var k := BootIndex(st.mem, st.count, SUFFIX_A);
    var mem2 := SetAttributes(st.mem, k, Activated(st.mem[k].attributes, resetSuccess, setSuccess));
    assert SameNames(st.mem, mem2);
    BootIndexKept(st.mem, mem2, st.count, SUFFIX_A);
    DemotedBits(mem2[k].attributes);
    var r := Refresh(st, s, resetSuccess, setSuccess).1;
    assert SameNames(st.mem, r.mem);
    BootIndexKept(st.mem, r.mem, st.count, SUFFIX_A);
    BootIndexKept(st.mem, r.mem, st.count, SUFFIX_B);
    OtherIsDifferent(SUFFIX_A);
    TwoBootEntries(st.mem, st.count, SUFFIX_A);
  }

  lemma MarkedActive(a: bv64)
    ensures Active(Marked(a, true))
  {
    hide Marked, Active, OtherBits, Unbootable, Successful, FullRetry;
    MarkedBits(a, true);
  }

  /** Both boot slots are marked active; of the two, _b wins with priority 3 only. */
  lemma BothMarked(a: bv64, b: bv64)
    requires Priority(a) == 2
    ensures Winner(Marked(a, true), Marked(b, true)) == if Priority(b) == 3 then SUFFIX_B else SUFFIX_A
  {
    hide Marked, Active, OtherBits, Unbootable, Successful, FullRetry;
    MarkedBits(a, true);
    MarkedBits(b, true);
  }

  /**
   * With the empty suffix, or a lone underscore, SetActiveSlot leaves both boot slots
   * active, and GetActiveSlot then returns _b if boot_b had priority 3 and _a otherwise.
   */
  lemma SetAmbiguous(st: State, s: Str16, resetSuccess: bool, setSuccess: bool)
    requires StateOk(st) && NamesFit(st.mem) && Ambiguous(s) && GetActiveSlot(st).status == Success
    ensures BothFound(GetActiveSlot(st).st)
    ensures var r := SetActiveSlot(st, s, resetSuccess, setSuccess);
      && r.0 == Success && BothFound(r.1) && Active(WordA(r.1)) && Active(WordB(r.1))
      && GetActiveSlot(r.1) == Found(Success, if Priority(WordB(GetActiveSlot(st).st)) == 3 then SUFFIX_B else SUFFIX_A, r.1)
  {
    hide UpdatePartitionAttributes, GetActiveSlot, Refresh, SwapNodes, MarkedTable, PartsList, HasPrefix, Winner, Priority, Marked, Active, Contains, NeverBooted, FirstBoot, IndexFrom;
    AmbiguousIs(s);
    NamesKeptByGet(st);
    GetFinds(st);
    var st1 := GetActiveSlot(st).st;
    AmbiguousRefresh(st1, s, resetSuccess, setSuccess);
    var st2 := Refresh(st1, s, resetSuccess, setSuccess).1;
    PartsFit(st2.mem, st2.count, st2.count);
    var t := SwapNodes(st2.mem, st2.count, PartsFor(st2), s);
    SwapNodesPermutes(st2.mem, st2.count, PartsFor(st2), s);
    var r := SetActiveSlot(st, s, resetSuccess, setSuccess).1;
    assert r.mem == MarkedTable(t, st2.count, s) && r.count == st2.count;
    AmbiguousMark(st2, t, r, s);
    BothMarked(WordA(st2), WordB(st2));
    MarkedActive(WordA(st2));
    MarkedActive(WordB(st2));
    GetIs(r);
  }

  lemma AmbiguousMark(st: State, t: seq<Entry>, r: State, s: Str16)
    requires StateOk(st) && StateOk(r) && Ambiguous(s) && BothFound(st) && SameButGuids(st.mem, t)
    requires r.count == st.count && r.mem == MarkedTable(t, st.count, s)
    ensures BothFound(r) && WordA(r) == Marked(WordA(st), true) && WordB(r) == Marked(WordB(st), true)
  {
    hide Marked, Contains, IndexFrom;
    AmbiguousIs(s);
    assert SameNames(st.mem, r.mem);
    BootIndexKept(st.mem, r.mem, st.count, SUFFIX_A);
    BootIndexKept(st.mem, r.mem, st.count, SUFFIX_B);
    TwoBootEntries(st.mem, st.count, SUFFIX_A);
    var k, o := BootIndex(st.mem, st.count, SUFFIX_A), BootIndex(st.mem, st.count, SUFFIX_B);
    assert t[k] == st.mem[k].(typeGuid := t[k].typeGuid) && t[o] == st.mem[o].(typeGuid := t[o].typeGuid);
  }

  // ---- the empty suffix and blank entries ----

  /** An entry that stands for a LUN is marked in memory too, and never written: memory is then out of step. */
  lemma BlankMarked(mem: seq<Entry>, count: nat, p: seq<Place>, i: nat)
    requires |mem| == MAX_NUM_PARTITIONS && count <= |mem| && |p| == count && i < count && p[i].handle.NoRecord?
    ensures !TableFits(MarkedTable(mem, count, []), p)
  {
    hide Marked, Active, OtherBits, Unbootable, Successful, FullRetry, Priority, Data1Zero;
    var t := MarkedTable(mem, count, []);
    assert HasPrefix(mem[i].name[0..], []);
    assert Contains(mem[i].name, []);
    MarkedBits(mem[i].attributes, true);
    BlankInactive(p[i].lun);
    assert !Fits(t[i], p[i]);
  }

  lemma BlankInactive(lun: nat)
    ensures !Active(Blank(lun).attributes)
  {
  }

  /** What SetActiveSlot leaves in memory for the empty suffix: every entry of the exchanged table marked. */
  lemma EmptySuffixTable(st: State, resetSuccess: bool, setSuccess: bool) returns (mem: seq<Entry>)
    requires StateOk(st) && NamesFit(st.mem) && GetActiveSlot(st).status == Success
    ensures |mem| == MAX_NUM_PARTITIONS
    ensures SetActiveSlot(st, [], resetSuccess, setSuccess).1.mem == MarkedTable(mem, st.count, [])
  {
    hide UpdatePartitionAttributes, GetActiveSlot, Refresh, SwapNodes, MarkedTable, PartsList, HasPrefix;
    AmbiguousIs([]);
    NamesKeptByGet(st);
    GetFinds(st);
    var st1 := GetActiveSlot(st).st;
    AmbiguousRefresh(st1, [], resetSuccess, setSuccess);
    var st2 := Refresh(st1, [], resetSuccess, setSuccess).1;
    PartsFit(st2.mem, st2.count, st2.count);
    mem := SwapNodes(st2.mem, st2.count, PartsFor(st2), []);
  }

  /** SetActiveSlot with the empty suffix leaves memory and disk in step exactly if no table entry is blank. */
  lemma EmptySuffixInStep(st: State, p: seq<Place>, resetSuccess: bool, setSuccess: bool)
    requires Inv(st, p) && StateOk(st) && NamesFit(st.mem) && GetActiveSlot(st).status == Success
    ensures InStep(SetActiveSlot(st, [], resetSuccess, setSuccess).1, p) <==> NoBlanks(p)
  {
    hide UpdatePartitionAttributes, GetActiveSlot, SetActiveSlot, MarkedTable, TableFits, InStep, Inv;
    InvPlaces(st, p);
    if NoBlanks(p) {
      SetKeeps(st, p, [], resetSuccess, setSuccess);
      InvInStep(SetActiveSlot(st, [], resetSuccess, setSuccess).1, p);
    } else {
      var i :| 0 <= i < |p| && !p[i].handle.Record?;
      var mem := EmptySuffixTable(st, resetSuccess, setSuccess);
      BlankMarked(mem, st.count, p, i);
      StepFits(SetActiveSlot(st, [], resetSuccess, setSuccess).1, p);
    }
  }

  lemma InvPlaces(st: State, p: seq<Place>)
    requires Inv(st, p)
    ensures |p| == st.count
  {
  }

  lemma StepFits(st: State, p: seq<Place>)
    ensures InStep(st, p) && |st.mem| == MAX_NUM_PARTITIONS && |p| <= MAX_NUM_PARTITIONS ==> TableFits(st.mem, p)
  {
  }
}
