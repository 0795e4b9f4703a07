/**
 * The slot engine as functions on its state: what each routine of
 * GPLDrivers/Library/BootSlotLib/PartitionTableUpdate.c computes.
 * The class SlotEngine runs the routines; the other modules state what follows.
 */
module SlotSpec {
  import opened Crc32Spec
  import opened GptFormat
  import opened Bits64
  import opened SlotTypes

  /**
   * mem and bak are the tables PtnEntries and PtnEntriesBak, parts is the list HeadNode
   * (first node first), luns is the storage and bootLun the boot LUN the device reports.
   */
  datatype State = State(mem: seq<Entry>, bak: seq<Entry>, count: nat, parts: seq<Str16>, device: Device,
                         bootLun: nat, luns: seq<Lun>)

  predicate StateOk(st: State) {
    && |st.mem| == MAX_NUM_PARTITIONS && |st.bak| == MAX_NUM_PARTITIONS && st.count <= MAX_NUM_PARTITIONS
    && (forall l :: 0 <= l < |st.luns| ==> LunOk(st.luns[l]))
    && (forall k :: 0 <= k < |st.parts| ==> |st.parts[k]| < BOOT_PART_SIZE)
    && (st.device.Emmc? ==> |st.luns| <= 1)
  }

  const BOOT_PART_SIZE := 32

  // ---- loading the table ----

  function BlankTable(): (t: seq<Entry>)
    ensures |t| == MAX_NUM_PARTITIONS
  {
    seq(MAX_NUM_PARTITIONS, i => Blank(0))
  }

  /** The engine of a program that has just enumerated the partitions: all statics are zero. */
  function Fresh(device: Device, bootLun: nat, luns: seq<Lun>): State {
    State(BlankTable(), BlankTable(), 0, [], device, bootLun, luns)
  }

  function PlacesOf(lun: nat, handles: seq<Handle>): (p: seq<Place>)
    ensures |p| == |handles|
  {
    seq(|handles|, j requires 0 <= j < |handles| => Place(lun, handles[j]))
  }

  /** All handles, LUN by LUN. */
  function AllPlaces(handles: seq<seq<Handle>>): seq<Place> {
    if handles == [] then []
    else AllPlaces(handles[..|handles| - 1]) + PlacesOf(|handles| - 1, handles[|handles| - 1])
  }

  function Min(a: nat, b: nat): nat {
    if a < b then a else b
  }

  /** Every record lies in a configured LUN. */
  predicate PlacesOk(places: seq<Place>, luns: seq<Lun>) {
    forall i :: 0 <= i < |places| && places[i].handle.Record? ==>
      && places[i].lun < |luns| && luns[places[i].lun].Lun? && LunOk(luns[places[i].lun])
      && places[i].handle.slot < MAX_NUM_PARTITIONS
  }

  function LoadedEntry(p: Place, luns: seq<Lun>): Entry
    requires PlacesOk([p], luns)
  {
    match p.handle
    case NoRecord => Blank(p.lun)
    case Record(slot) =>
      assert [p][0].handle.Record?;
      Decode(luns[p.lun].bytes, SlotAt(luns[p.lun], false, slot), p.lun)
  }

  /** The table a fresh read of the primary GPTs gives. */
  function Loaded(places: seq<Place>, luns: seq<Lun>): (t: seq<Entry>)
    requires PlacesOk(places, luns)
    ensures |t| == MAX_NUM_PARTITIONS
  {
    seq(MAX_NUM_PARTITIONS, i requires 0 <= i =>
      if i < |places| then
        assert PlacesOk([places[i]], luns) by { assert [places[i]][0] == places[i]; }
        LoadedEntry(places[i], luns)
      else Blank(0))
  }

  /** The loaded entry of place i. */
  lemma LoadedAt(p: seq<Place>, luns: seq<Lun>, i: nat)
    requires PlacesOk(p, luns) && i < MAX_NUM_PARTITIONS
    ensures Loaded(p, luns)[i] ==
      if i >= |p| then Blank(0)
      else if p[i].handle.NoRecord? then Blank(p[i].lun)
      else Decode(luns[p[i].lun].bytes, SlotAt(luns[p[i].lun], false, p[i].handle.slot), p[i].lun)
  {
    hide Decode;
    if i < |p| {
      assert PlacesOk([p[i]], luns) by {
        assert [p[i]][0] == p[i];
      }
    }
  }

  /** UpdatePartitionEntries. */
  function UpdatePartitionEntries(st: State, handles: seq<seq<Handle>>): State
    requires PlacesOk(AllPlaces(handles), st.luns)
  {
    var places := AllPlaces(handles);
    var t := Loaded(places, st.luns);
    st.(mem := t, bak := t, count := Min(|places|, MAX_NUM_PARTITIONS))
  }

  // ---- writing the table back ----

  /** The scan over one GPT copy: the buffer, the entry pointer, the shadow table and the flag SkipUpdation. */
  datatype Scan = Scan(buf: seq<Byte>, ptr: nat, bak: seq<Entry>, skip: bool)

  /** The scan has room for n more entries. */
  predicate Room(s: Scan, n: nat) {
    s.ptr + PARTITION_ENTRY_SIZE * n <= |s.buf| && |s.bak| == MAX_NUM_PARTITIONS
  }

  function SetGuid(t: seq<Entry>, i: nat, g: Guid): (r: seq<Entry>)
    requires i < |t|
    ensures |r| == |t|
  {
    t[i := t[i].(typeGuid := g)]
  }

  function SetAttributes(t: seq<Entry>, i: nat, a: bv64): (r: seq<Entry>)
    requires i < |t|
    ensures |r| == |t|
  {
    t[i := t[i].(attributes := a)]
  }

  function GuidAt(b: seq<Byte>, at: nat): Guid
    requires at + 16 <= |b|
  {
    b[at..at + 16]
  }

  function AttributesAt(b: seq<Byte>, at: nat): bv64
    requires at + ATTRIBUTE_FLAG_OFFSET + 8 <= |b|
  {
    GetLe64(b, at + ATTRIBUTE_FLAG_OFFSET)
  }

  function ScanGuid(e: Entry, i: nat, s: Scan): Scan
    requires Room(s, 1) && i < MAX_NUM_PARTITIONS
  {
    if GuidAt(s.buf, s.ptr) != e.typeGuid then
      s.(buf := Put(s.buf, s.ptr, e.typeGuid), bak := SetGuid(s.bak, i, e.typeGuid), skip := false)
    else s
  }

  function ScanAttributes(e: Entry, i: nat, s: Scan): Scan
    requires Room(s, 1) && i < MAX_NUM_PARTITIONS
  {
    if AttributesAt(s.buf, s.ptr) != e.attributes then
      s.(buf := Put(s.buf, s.ptr + ATTRIBUTE_FLAG_OFFSET, Le64(e.attributes)),
         bak := SetAttributes(s.bak, i, e.attributes), skip := false)
    else s
  }

  /** One entry of this LUN.  On a foreign GUID in attribute mode the pointer stays where it is. */
  function ScanEntry(e: Entry, i: nat, ut: UpdateType, s: Scan): (r: Scan)
    requires Room(s, 1) && i < MAX_NUM_PARTITIONS
    ensures |r.buf| == |s.buf| && |r.bak| == |s.bak|
    ensures s.ptr <= r.ptr <= s.ptr + PARTITION_ENTRY_SIZE
  {
    var s1 := if ut.guid then ScanGuid(e, i, s) else s;
    var g := GuidAt(s1.buf, s1.ptr);
    if !ut.attributes then s1.(ptr := s1.ptr + PARTITION_ENTRY_SIZE)
    else if Data1Zero(g) || g == e.typeGuid then
      ScanAttributes(e, i, s1).(ptr := s1.ptr + PARTITION_ENTRY_SIZE)
    else s1
  }

  /** The loop over the in-memory table, from entry i on. */
  function ScanFrom(mem: seq<Entry>, count: nat, i: nat, lun: nat, device: Device, ut: UpdateType, s: Scan): (r: Scan)
    requires i <= count <= MAX_NUM_PARTITIONS && |mem| == MAX_NUM_PARTITIONS && Room(s, count - i)
    ensures |r.buf| == |s.buf| && |r.bak| == |s.bak|
    decreases count - i
  {
    if i == count then s
    else if Data1Zero(mem[i].typeGuid) then ScanFrom(mem, count, i + 1, lun, device, ut, s)
    else if device.Ufs? && mem[i].lun > lun then s
    else if device.Ufs? && mem[i].lun != lun then ScanFrom(mem, count, i + 1, lun, device, ut, s)
    else ScanFrom(mem, count, i + 1, lun, device, ut, ScanEntry(mem[i], i, ut, s))
  }

  function TableBytes(header: seq<Byte>): nat
    requires HEADER_SIZE <= |header|
  {
    Times(WordAt(header, ENTRY_COUNT_OFFSET), WordAt(header, ENTRY_SIZE_OFFSET))
  }

  function Times(a: nat, b: nat): nat {
    a * b
  }

  function WordAt(b: seq<Byte>, at: nat): nat
    requires at + 4 <= |b|
  {
    GetLe32(b, at) as nat
  }

  /** The declared entry array fits the buffer; CalculateCrc32 refuses an empty range. */
  predicate TableBytesOk(header: seq<Byte>)
    requires HEADER_SIZE <= |header|
  {
    0 < TableBytes(header) <= MAX_PARTITION_ENTRIES_SZ
  }

  /** The header with the CRC of the entry array, then its own CRC, stored. */
  function Sealed(header: seq<Byte>, table: seq<Byte>): (h: seq<Byte>)
    requires HEADER_SIZE <= |header| && TableBytes(header) <= |table|
    ensures |h| == |header|
  {
    var h1 := Put(header, ENTRIES_CRC_OFFSET, Le32(Crc32(table[..TableBytes(header)])));
    var h2 := Put(h1, HEADER_CRC_OFFSET, Le32(0));
    Put(h2, HEADER_CRC_OFFSET, Le32(Crc32(h2[..HEADER_SIZE])))
  }

  /** Continue with the next copy, or leave the routine through its Exit label. */
  datatype Flow = Flow(lun: Lun, bak: seq<Entry>, exit: bool)

  /** A GPT copy's blocks as the routine reads them: header and table, or table and header. */
  function Region(l: Lun, backup: bool): (b: seq<Byte>)
    requires l.Lun? && LunOk(l)
    ensures |b| == l.blockSize + MAX_PARTITION_ENTRIES_SZ
  {
    l.bytes[RegionAt(l, backup)..RegionAt(l, backup) + l.blockSize + MAX_PARTITION_ENTRIES_SZ]
  }

  function RegionAt(l: Lun, backup: bool): (at: nat)
    requires l.Lun? && LunOk(l)
    ensures at + l.blockSize + MAX_PARTITION_ENTRIES_SZ <= |l.bytes|
  {
    if backup then TableAt(l, true) else HeaderAt(l, false)
  }

  function HeaderIn(l: Lun, backup: bool): nat
    requires l.Lun?
  {
    if backup then MAX_PARTITION_ENTRIES_SZ else 0
  }

  function TableIn(l: Lun, backup: bool): nat
    requires l.Lun?
  {
    if backup then 0 else l.blockSize
  }

  /** A region with its header sealed. */
  function SealedRegion(l: Lun, backup: bool, buf: seq<Byte>): (b: seq<Byte>)
    requires l.Lun? && LunOk(l) && |buf| == l.blockSize + MAX_PARTITION_ENTRIES_SZ
    requires TableBytes(buf[HeaderIn(l, backup)..HeaderIn(l, backup) + l.blockSize]) <= MAX_PARTITION_ENTRIES_SZ
    ensures |b| == |buf|
  {
    var h, t := HeaderIn(l, backup), TableIn(l, backup);
    Put(buf, h, Sealed(buf[h..h + l.blockSize], buf[t..t + MAX_PARTITION_ENTRIES_SZ]))
  }

  /** One of the two passes over a LUN. */
  function UpdateCopy(mem: seq<Entry>, bak: seq<Entry>, count: nat, lun: nat, device: Device, ut: UpdateType,
                      l: Lun, backup: bool): (f: Flow)
    requires |mem| == MAX_NUM_PARTITIONS && |bak| == MAX_NUM_PARTITIONS && count <= MAX_NUM_PARTITIONS
    requires l.Lun? && LunOk(l)
    ensures f.lun.Lun? && LunOk(f.lun) && f.lun.blockSize == l.blockSize && |f.lun.bytes| == |l.bytes|
    ensures |f.bak| == |bak|
  {
    var s := ScanFrom(mem, count, 0, lun, device, ut, Scan(Region(l, backup), TableIn(l, backup), bak, true));
    var h := HeaderIn(l, backup);
    if s.skip then Flow(l, s.bak, false)
    else if !TableBytesOk(s.buf[h..h + l.blockSize]) then Flow(l, s.bak, true)
    else Flow(l.(bytes := Put(l.bytes, RegionAt(l, backup), SealedRegion(l, backup, s.buf))), s.bak, false)
  }

  /** Primary pass, then backup pass. */
  function UpdateLun(mem: seq<Entry>, bak: seq<Entry>, count: nat, lun: nat, device: Device, ut: UpdateType, l: Lun): (f: Flow)
    requires |mem| == MAX_NUM_PARTITIONS && |bak| == MAX_NUM_PARTITIONS && count <= MAX_NUM_PARTITIONS
    requires l.Lun? && LunOk(l)
    ensures f.lun.Lun? && LunOk(f.lun) && f.lun.blockSize == l.blockSize && |f.lun.bytes| == |l.bytes|
    ensures |f.bak| == |bak|
  {
    var f := UpdateCopy(mem, bak, count, lun, device, ut, l, false);
    if f.exit then f else UpdateCopy(mem, f.bak, count, lun, device, ut, f.lun, true)
  }

  /** The loop over the LUNs, from LUN k on. */
  function UpdateLuns(st: State, ut: UpdateType, k: nat): (r: State)
    requires StateOk(st) && k <= |st.luns|
    ensures StateOk(r) && r == st.(bak := r.bak, luns := r.luns) && |r.luns| == |st.luns|
    decreases |st.luns| - k
  {
    if k == |st.luns| then st
    else if st.luns[k].Unconfigured? then UpdateLuns(st, ut, k + 1)
    else
      var f := UpdateLun(st.mem, st.bak, st.count, k, st.device, ut, st.luns[k]);
      var st' := st.(bak := f.bak, luns := st.luns[k := f.lun]);
      if f.exit then st' else UpdateLuns(st', ut, k + 1)
  }

  /** UpdatePartitionAttributes. */
  function UpdatePartitionAttributes(st: State, ut: UpdateType): (r: State)
    requires StateOk(st)
    ensures StateOk(r) && r == st.(bak := r.bak, luns := r.luns) && |r.luns| == |st.luns|
  {
    if st.mem == st.bak || st.device.UnknownDevice? then st else UpdateLuns(st, ut, 0)
  }

  // ---- names ----

  /** GetPartitionIndex from entry i on; count when there is none. */
  function IndexFrom(mem: seq<Entry>, count: nat, i: nat, name: Str16): (k: nat)
    requires i <= count <= |mem|
    ensures i <= k <= count
    ensures k < count ==> mem[k].name == name
    ensures forall j :: i <= j < k ==> mem[j].name != name
    decreases count - i
  {
    if i == count then count
    else if mem[i].name == name then i
    else IndexFrom(mem, count, i + 1, name)
  }

  /** GetBootPartitionEntry as an index; count stands for NULL.  The comparison runs over the suffix's length only. */
  function BootIndex(mem: seq<Entry>, count: nat, suffix: Str16): (k: nat)
    requires count <= |mem|
    ensures k <= count
  {
    if HasPrefix(SUFFIX_A, suffix) then IndexFrom(mem, count, 0, BOOT_A)
    else if HasPrefix(SUFFIX_B, suffix) then IndexFrom(mem, count, 0, BOOT_B)
    else count
  }

  /** Does entry i's name read name_a... or name_b...? */
  predicate SlotOf(e: Entry, name: Str16) {
    && HasPrefix(e.name, name) && |e.name| >= |name| + 2
    && e.name[|name|] == UNDERSCORE && (e.name[|name| + 1] == LETTER_A || e.name[|name| + 1] == LETTER_B)
  }

  function SlotCount(mem: seq<Entry>, count: nat, name: Str16): nat
    requires count <= |mem|
  {
    if count == 0 then 0 else SlotCount(mem, count - 1, name) + (if SlotOf(mem[count - 1], name) then 1 else 0)
  }

  /** PartitionHasMultiSlot: more than one slot of that name. */
  predicate PartitionHasMultiSlot(st: State, name: Str16)
    requires StateOk(st)
  {
    SlotCount(st.mem, st.count, name) > 1
  }

  // ---- attribute changes ----

  function ClearedUnbootable(a: bv64): bv64 {
    With(Without(a, UNBOOTABLE_VAL), MAX_RETRY_COUNT_VAL)
  }

  function FirstBoot(a: bv64): bv64 {
    With(Without(a, SUCCESSFUL_VAL | UNBOOTABLE_VAL), PRIORITY_VAL | ACTIVE_VAL | MAX_RETRY_COUNT_VAL)
  }

  function Activated(a: bv64, resetSuccess: bool, setSuccess: bool): bv64 {
    var b := Without(With(a, PRIORITY_VAL | ACTIVE_VAL | MAX_RETRY_COUNT_VAL), UNBOOTABLE_VAL);
    var c := if resetSuccess && Successful(b) then Without(b, SUCCESSFUL_VAL) else b;
    if setSuccess && !Successful(c) then With(c, SUCCESSFUL_VAL) else c
  }

  /** MAX_PRIORITY - 1, in the priority field's place. */
  const SECOND_PRIORITY: bv64 := 0x0002_0000_0000_0000

  function Demoted(a: bv64): bv64 {
    With(Without(a, PRIORITY_VAL | ACTIVE_VAL), SECOND_PRIORITY)
  }

  function Marked(a: bv64, active: bool): bv64 {
    if active then With(a, ACTIVE_VAL) else Without(a, ACTIVE_VAL)
  }

  // ---- the slot routines ----

  predicate IsSlotBootable(st: State, suffix: Str16)
    requires StateOk(st)
  {
    var k := BootIndex(st.mem, st.count, suffix);
    k < st.count && !Unbootable(st.mem[k].attributes) && Successful(st.mem[k].attributes)
  }

  function ClearUnbootable(st: State, suffix: Str16): (r: (Status, State))
    requires StateOk(st)
    ensures StateOk(r.1)
  {
    var k := BootIndex(st.mem, st.count, suffix);
    if k == st.count then (NotFound, st)
    else
      var mem := SetAttributes(st.mem, k, ClearedUnbootable(st.mem[k].attributes));
      (Success, UpdatePartitionAttributes(st.(mem := mem), PARTITION_ATTRIBUTES))
  }

  predicate Above(x: bv64, y: bv64) {
    x > y
  }

  /** The entry is a candidate that beats the given priority. */
  predicate Beats(a: bv64, priority: bv64) {
    Active(a) && Above(Priority(a), priority)
  }

  /** All A/B attributes but the retry count are zero. */
  predicate NeverBooted(a: bv64) {
    !Active(a) && !Successful(a) && !Unbootable(a) && Priority(a) == 0
  }

  datatype Found = Found(status: Status, suffix: Str16, st: State)

  /** GetActiveSlot, called with an empty suffix. */
  function GetActiveSlot(st: State): (r: Found)
    requires StateOk(st)
    ensures StateOk(r.st)
    ensures r.suffix == [] || r.suffix == SUFFIX_A || r.suffix == SUFFIX_B
    ensures r.status == Success ==> r.suffix != []
  {
    var ka, kb := BootIndex(st.mem, st.count, SUFFIX_A), BootIndex(st.mem, st.count, SUFFIX_B);
    if ka == st.count then Found(NotFound, [], st)
    else
      var a := st.mem[ka].attributes;
      var aWins := Beats(a, 0);
      if kb == st.count then Found(NotFound, if aWins then SUFFIX_A else [], st)
      else if Beats(st.mem[kb].attributes, if aWins then Priority(a) else 0) then Found(Success, SUFFIX_B, st)
      else if aWins then Found(Success, SUFFIX_A, st)
      else if NeverBooted(a) then
        var mem := SetAttributes(st.mem, ka, FirstBoot(a));
        Found(Success, SUFFIX_A, UpdatePartitionAttributes(st.(mem := mem), PARTITION_ATTRIBUTES))
      else Found(NotFound, [], st)
  }

  /** MarkPtnActive's change of the table, for the first n entries. */
  function MarkedTable(mem: seq<Entry>, n: nat, suffix: Str16): (t: seq<Entry>)
    requires n <= |mem|
    ensures |t| == |mem|
    ensures forall i :: 0 <= i < |mem| ==>
      t[i] == if i < n then mem[i].(attributes := Marked(mem[i].attributes, Contains(mem[i].name, suffix))) else mem[i]
  {
    seq(|mem|, i requires 0 <= i < |mem| =>
      if i < n then mem[i].(attributes := Marked(mem[i].attributes, Contains(mem[i].name, suffix))) else mem[i])
  }

  function MarkPtnActive(st: State, suffix: Str16): (r: State)
    requires StateOk(st)
    ensures StateOk(r)
  {
    UpdatePartitionAttributes(st.(mem := MarkedTable(st.mem, st.count, suffix)), PARTITION_ATTRIBUTES)
  }

  // ---- exchanging type GUIDs ----

  /** SwapPtnGuid on two entries of the table. */
  function Exchanged(mem: seq<Entry>, i: nat, j: nat): (t: seq<Entry>)
    requires i < |mem| && j < |mem|
    ensures |t| == |mem|
  {
    SetGuid(SetGuid(mem, i, mem[j].typeGuid), j, mem[i].typeGuid)
  }

  /** The entry's name shows that it is one of several slots. */
  predicate Slotted(name: Str16) {
    Contains(name, SUFFIX_A) || Contains(name, SUFFIX_B)
  }

  /** Same length, and equal up to the last character. */
  predicate Siblings(x: Str16, y: Str16) {
    x != [] && y != [] && |x| == |y| && x[..|x| - 1] == y[..|y| - 1]
  }

  /** GetMultiSlotPartsList makes a node for entry i. */
  predicate Listed(mem: seq<Entry>, count: nat, i: nat)
    requires i < count <= |mem|
  {
    && Slotted(mem[i].name)
    && exists j :: i < j < count && Siblings(mem[j].name, mem[i].name)
  }

  /** The list after entries 0..n have been looked at; new nodes go to the front. */
  function PartsList(mem: seq<Entry>, count: nat, n: nat): seq<Str16>
    requires n <= count <= |mem|
  {
    if n == 0 then []
    else
      var rest := PartsList(mem, count, n - 1);
      if Listed(mem, count, n - 1) then
        [mem[n - 1].name[..|mem[n - 1].name| - 2]] + rest
      else rest
  }

  /** StrnCatS into a buffer of 32 characters: a suffix that does not fit is left out. */
  function Cat(base: Str16, suffix: Str16): Str16 {
    if |base| + |suffix| < BOOT_PART_SIZE then base + suffix else base
  }

  /** The last of the first n entries that satisfies the inner loop's first test; n stands for NULL... */
  function LastCurrent(mem: seq<Entry>, n: nat, cur: Str16): (k: int)
    requires n <= |mem|
    ensures -1 <= k < n
    ensures k >= 0 ==> HasPrefix(mem[k].name, cur)
    ensures forall j :: k < j < n ==> !HasPrefix(mem[j].name, cur)
  {
    if n == 0 then -1 else if HasPrefix(mem[n - 1].name, cur) then n - 1 else LastCurrent(mem, n - 1, cur)
  }

  /** ... and the last that fails the first test and satisfies the second. */
  function LastNew(mem: seq<Entry>, n: nat, cur: Str16, new_: Str16): (k: int)
    requires n <= |mem|
    ensures -1 <= k < n
    ensures k >= 0 ==> HasPrefix(mem[k].name, new_) && !HasPrefix(mem[k].name, cur)
    ensures forall j :: k < j < n ==> HasPrefix(mem[j].name, cur) || !HasPrefix(mem[j].name, new_)
  {
    if n == 0 then -1
    else if !HasPrefix(mem[n - 1].name, cur) && HasPrefix(mem[n - 1].name, new_) then n - 1
    else LastNew(mem, n - 1, cur, new_)
  }

  /** The slot suffix that is switched off when another is switched on. */
  function Inactive(active: Str16): Str16 {
    if HasPrefix(active, SUFFIX_A) then SUFFIX_B else SUFFIX_A
  }

  /** The pass over one list node. */
  function SwapNode(mem: seq<Entry>, count: nat, base: Str16, active: Str16): (t: seq<Entry>)
    requires count <= |mem|
    ensures |t| == |mem|
  {
    var cur, new_ := Cat(base, Inactive(active)), Cat(base, active);
    var i, j := LastCurrent(mem, count, cur), LastNew(mem, count, cur, new_);
    if i < 0 || j < 0 then mem else Exchanged(mem, i, j)
  }

  /** The pass over the whole list. */
  function SwapNodes(mem: seq<Entry>, count: nat, parts: seq<Str16>, active: Str16): (t: seq<Entry>)
    requires count <= |mem|
    ensures |t| == |mem|
    decreases |parts|
  {
    if parts == [] then mem else SwapNodes(SwapNode(mem, count, parts[0], active), count, parts[1..], active)
  }

  /** The boot LUN that belongs to the slot switched to, when the device boots from LUN 1 or 2. */
  function SwitchedBootLun(bootLun: nat, active: Str16): nat {
    if bootLun == 1 && HasPrefix(active, SUFFIX_B) then 2
    else if bootLun == 2 && HasPrefix(active, SUFFIX_A) then 1
    else bootLun
  }

  function PartsFor(st: State): seq<Str16>
    requires StateOk(st)
  {
    if st.parts == [] then PartsList(st.mem, st.count, st.count) else st.parts
  }

  /** Names short enough for the list's buffers. */
  predicate NamesFit(mem: seq<Entry>) {
    forall i :: 0 <= i < |mem| ==> |mem[i].name| < BOOT_PART_SIZE + 2
  }

  lemma {:induction false} PartsFit(mem: seq<Entry>, count: nat, n: nat)
    requires n <= count <= |mem| && NamesFit(mem)
    ensures forall k :: 0 <= k < |PartsList(mem, count, n)| ==> |PartsList(mem, count, n)[k]| < BOOT_PART_SIZE
  {
    if n == 0 {
    } else {
      PartsFit(mem, count, n - 1);
    }
  }

  /** SwitchPtnSlots. */
  function SwitchPtnSlots(st: State, active: Str16): (r: State)
    requires StateOk(st) && NamesFit(st.mem)
    ensures StateOk(r)
  {
    var parts := PartsFor(st);
    PartsFit(st.mem, st.count, st.count);
    var st1 := st.(parts := parts, mem := SwapNodes(st.mem, st.count, parts, active),
                   bootLun := if st.device.Ufs? then SwitchedBootLun(st.bootLun, active) else st.bootLun);
    UpdatePartitionAttributes(st1, PARTITION_GUID)
  }

  /** The first half of SetActiveSlot: the attribute words of the two boot slots. */
  function Refresh(st: State, suffix: Str16, resetSuccess: bool, setSuccess: bool): (r: (Status, State))
    requires StateOk(st)
    ensures StateOk(r.1)
    ensures NamesFit(st.mem) ==> NamesFit(r.1.mem)
  {
    var other := Inactive(suffix);
    var k := BootIndex(st.mem, st.count, suffix);
    if k == st.count then (NotFound, st)
    else
      var mem2 := SetAttributes(st.mem, k, Activated(st.mem[k].attributes, resetSuccess, setSuccess));
      var k' := BootIndex(mem2, st.count, other);
      if k' == st.count then (NotFound, st.(mem := mem2))
      else
        var mem3 := SetAttributes(mem2, k', Demoted(mem2[k'].attributes));
        (Success, UpdatePartitionAttributes(st.(mem := mem3), PARTITION_ATTRIBUTES))
  }

  /** The second half: the boot LUN when the slot is active already, the switch otherwise. */
  function Settle(st: State, current: Str16, suffix: Str16): (r: State)
    requires StateOk(st) && NamesFit(st.mem)
    ensures StateOk(r)
  {
    if HasPrefix(suffix, current) then
      if st.device.Ufs? then st.(bootLun := SwitchedBootLun(st.bootLun, current)) else st
    else MarkPtnActive(SwitchPtnSlots(st, suffix), suffix)
  }

  /** SetActiveSlot. */
  function SetActiveSlot(st: State, suffix: Str16, resetSuccess: bool, setSuccess: bool): (r: (Status, State))
    requires StateOk(st) && NamesFit(st.mem)
    ensures StateOk(r.1)
  {
    var current := GetActiveSlot(st);
    NamesKeptByGet(st);
    if current.status != Success then (current.status, current.st)
    else
      var refreshed := Refresh(current.st, suffix, resetSuccess, setSuccess);
      if refreshed.0 != Success then refreshed
      else (Success, Settle(refreshed.1, current.suffix, suffix))
  }

  lemma NamesKeptByGet(st: State)
    requires StateOk(st) && NamesFit(st.mem)
    ensures NamesFit(GetActiveSlot(st).st.mem)
  {
  }
}
