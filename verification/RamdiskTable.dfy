/** VendorRamdiskTableBuilder of tools/mkbootimg.py: the table of vendor ramdisks. */
module RamdiskTable {
  import opened Wrappers
  import opened BootImage
  import opened BootImageWriter

  type Disk = map<string, seq<Byte>>

  const DEFAULT: seq<Byte> := [0x64, 0x65, 0x66, 0x61, 0x75, 0x6C, 0x74]
  const BOARD_ID_SIZE := 16
  const NAME_SIZE := 32
  const ENTRY_SIZE := 108

  datatype TableError = BannedName | DuplicatedName | BoardIdOverflow | BoardIdSize | NoSuchFile

  datatype Entry = Entry(path: string, size: nat, offset: nat, kind: int, name: seq<Byte>, boardId: seq<int>)

  datatype Table = Table(entries: seq<Entry>, total: nat, names: set<seq<Byte>>)

  const EMPTY := Table([], 0, {})

  /** The arguments of add_entry. */
  datatype Request = Request(path: string, kind: int, name: seq<Byte>, boardId: Option<seq<int>>)

  /** rstrip of the zero byte. */
  function Stripped(name: seq<Byte>): seq<Byte> {
    if name != [] && name[|name| - 1] == 0 then Stripped(name[..|name| - 1]) else name
  }

  function BoardId(r: Request): seq<int> {
    if r.boardId.None? then seq(BOARD_ID_SIZE, _ => 0) else r.boardId.value
  }

  /** array('I', ...) takes numbers of 32 bits only. */
  predicate WordsFit(b: seq<int>) {
    forall k :: 0 <= k < |b| ==> 0 <= b[k] < 0x1_0000_0000
  }

  /** add_entry. */
  function Add(t: Table, disk: Disk, r: Request): (Table, Option<TableError>) {
    var stripped := Stripped(r.name);
    if stripped == DEFAULT then (t, Some(BannedName))
    else if stripped in t.names then (t, Some(DuplicatedName))
    else
      var named := t.(names := t.names + {stripped});
      if !WordsFit(BoardId(r)) then (named, Some(BoardIdOverflow))
      else if |BoardId(r)| != BOARD_ID_SIZE then (named, Some(BoardIdSize))
      else if r.path !in disk then (named, Some(NoSuchFile))
      else
        var size := |disk[r.path]|;
        (Table(t.entries + [Entry(r.path, size, t.total, r.kind, r.name, BoardId(r))], t.total + size, named.names), None)
  }

  /** Bytes in the first k ramdisks. */
  function SizeBefore(entries: seq<Entry>, k: nat): nat
    requires k <= |entries|
  {
    if k == 0 then 0 else SizeBefore(entries, k - 1) + entries[k - 1].size
  }

  lemma {:induction false} SizeBeforeKept(a: seq<Entry>, b: seq<Entry>, k: nat)
    requires k <= |a|
    ensures SizeBefore(a + b, k) == SizeBefore(a, k)
  {
    if k > 0 {
      SizeBeforeKept(a, b, k - 1);
    }
  }

  predicate EntryOk(t: Table, disk: Disk, k: nat)
    requires k < |t.entries|
  {
    var e := t.entries[k];
    && e.path in disk && e.size == |disk[e.path]| && e.offset == SizeBefore(t.entries, k)
    && Stripped(e.name) != DEFAULT && Stripped(e.name) in t.names
    && |e.boardId| == BOARD_ID_SIZE && WordsFit(e.boardId)
  }

  predicate Distinct(entries: seq<Entry>) {
    forall i, j :: 0 <= i < j < |entries| ==> Stripped(entries[i].name) != Stripped(entries[j].name)
  }

  /** Offsets tile the ramdisks from 0 to the total; names are allowed and all different. */
  predicate TableOk(t: Table, disk: Disk) {
    && (forall k :: 0 <= k < |t.entries| ==> EntryOk(t, disk, k))
    && t.total == SizeBefore(t.entries, |t.entries|)
    && Distinct(t.entries)
  }

  lemma AddKeeps(t: Table, disk: Disk, r: Request)
    requires TableOk(t, disk)
    ensures TableOk(Add(t, disk, r).0, disk)
    ensures t.entries <= Add(t, disk, r).0.entries
  {
    hide Stripped, BoardId, WordsFit, SizeBefore;
    var u := Add(t, disk, r).0;
    if Add(t, disk, r).1.Some? {
      forall k | 0 <= k < |u.entries|
        ensures EntryOk(u, disk, k)
      {
        assert EntryOk(t, disk, k);
      }
    } else {
      var n, added := |t.entries|, u.entries[|t.entries|..];
      assert u.entries == t.entries + added;
      AddedOffset(t.entries, added);
      forall k | 0 <= k < n + 1
        ensures EntryOk(u, disk, k)
      {
        SizeBeforeKept(t.entries, added, if k < n then k else n);
        if k < n {
          assert EntryOk(t, disk, k);
        }
      }
      forall i, j | 0 <= i < j < n + 1
        ensures Stripped(u.entries[i].name) != Stripped(u.entries[j].name)
      {
        assert EntryOk(t, disk, i);
      }
    }
  }

  lemma AddedOffset(a: seq<Entry>, b: seq<Entry>)
    requires |b| == 1
    ensures SizeBefore(a + b, |a| + 1) == SizeBefore(a, |a|) + b[0].size
  {
    SizeBeforeKept(a, b, |a|);
  }

  /** The table after any run of calls, failed ones included. */
  function AddAll(disk: Disk, rs: seq<Request>): Table {
    if rs == [] then EMPTY else Add(AddAll(disk, rs[..|rs| - 1]), disk, rs[|rs| - 1]).0
  }

  lemma {:induction false} RunOk(disk: Disk, rs: seq<Request>)
    ensures TableOk(AddAll(disk, rs), disk)
  {
    if rs != [] {
      RunOk(disk, rs[..|rs| - 1]);
      AddKeeps(AddAll(disk, rs[..|rs| - 1]), disk, rs[|rs| - 1]);
    }
  }

  /** Some call of the run has used the name. */
  predicate Used(rs: seq<Request>, name: seq<Byte>) {
    exists k :: 0 <= k < |rs| && Stripped(rs[k].name) == name
  }

  /** A name is taken by its first use, whether or not that call then failed. */
  lemma {:induction false} NamesTaken(disk: Disk, rs: seq<Request>, name: seq<Byte>)
    ensures name in AddAll(disk, rs).names <==> Used(rs, name) && name != DEFAULT
  {
    hide Stripped, BoardId, WordsFit;
    if rs != [] {
      var before := rs[..|rs| - 1];
      NamesTaken(disk, before, name);
      assert Used(rs, name) <==> Used(before, name) || Stripped(rs[|rs| - 1].name) == name by {
        if Used(before, name) {
          var k :| 0 <= k < |before| && Stripped(before[k].name) == name;
          assert rs[k] == before[k];
        }
        if Used(rs, name) {
          var k :| 0 <= k < |rs| && Stripped(rs[k].name) == name;
          assert k < |before| ==> before[k] == rs[k];
        }
      }
    }
  }

  /** Exactly when a call after a run adds an entry. */
  lemma Accepted(disk: Disk, rs: seq<Request>, r: Request)
    ensures Add(AddAll(disk, rs), disk, r).1.None? <==>
      && Stripped(r.name) != DEFAULT && !Used(rs, Stripped(r.name))
      && |BoardId(r)| == BOARD_ID_SIZE && WordsFit(BoardId(r)) && r.path in disk
    ensures |AddAll(disk, rs + [r]).entries| == |AddAll(disk, rs).entries| + (if Add(AddAll(disk, rs), disk, r).1.None? then 1 else 0)
  {
    hide Stripped, Used, BoardId, WordsFit;
    NamesTaken(disk, rs, Stripped(r.name));
    assert (rs + [r])[..|rs|] == rs;
  }

  // ---- what is written ----

  /** The ramdisks one after the other. */
  function Ramdisks(disk: Disk, entries: seq<Entry>): seq<Byte>
    requires forall k :: 0 <= k < |entries| ==> entries[k].path in disk
  {
    if entries == [] then [] else Ramdisks(disk, entries[..|entries| - 1]) + disk[entries[|entries| - 1].path]
  }

  predicate SizesOk(entries: seq<Entry>, disk: Disk) {
    forall k :: 0 <= k < |entries| ==> entries[k].path in disk && entries[k].size == |disk[entries[k].path]|
  }

  /** Ramdisk k lies between the sizes before it and after it; all of them make up the total. */
  lemma {:induction false} RamdiskAt(disk: Disk, entries: seq<Entry>, k: nat)
    requires SizesOk(entries, disk) && k <= |entries|
    ensures |Ramdisks(disk, entries)| == SizeBefore(entries, |entries|)
    ensures k < |entries| ==> Stands(Ramdisks(disk, entries), SizeBefore(entries, k), disk[entries[k].path])
    decreases |entries|
  {
    if entries != [] {
      var before, last := entries[..|entries| - 1], entries[|entries| - 1];
      assert entries == before + [last];
      SizeBeforeKept(before, [last], |before|);
      if k < |before| {
        SizeBeforeKept(before, [last], k);
        RamdiskAt(disk, before, k);
      } else {
        RamdiskAt(disk, before, |before|);
      }
    }
  }

  function BoardFields(b: seq<int>): (fs: seq<Field>)
    ensures |fs| == |b|
  {
    seq(|b|, i requires 0 <= i < |b| => Word(b[i]))
  }

  function EntryFields(e: Entry): seq<Field> {
    [Word(e.size), Word(e.offset), Word(e.kind), Text(NAME_SIZE, e.name)] + BoardFields(e.boardId)
  }

  function TableFields(entries: seq<Entry>): seq<Field> {
    if entries == [] then [] else TableFields(entries[..|entries| - 1]) + EntryFields(entries[|entries| - 1])
  }

  lemma {:induction false} BoardOffsets(e: Entry, k: nat)
    requires k <= |e.boardId|
    ensures OffsetOf(EntryFields(e), 4 + k) == 44 + 4 * k
    ensures OffsetOf(EntryFields(e), 1) == 4 && OffsetOf(EntryFields(e), 2) == 8 && OffsetOf(EntryFields(e), 3) == 12
  {
    var fs := EntryFields(e);
    assert fs[0] == Word(e.size) && fs[1] == Word(e.offset) && fs[2] == Word(e.kind) && fs[3] == Text(NAME_SIZE, e.name);
    assert OffsetOf(fs, 1) == 4 && OffsetOf(fs, 2) == 8 && OffsetOf(fs, 3) == 12;
    if k > 0 {
      BoardOffsets(e, k - 1);
      assert fs[3 + k] == BoardFields(e.boardId)[k - 1] == Word(e.boardId[k - 1]);
      assert OffsetOf(fs, 4 + k) == OffsetOf(fs, 3 + k) + 4;
    }
  }

  /** The entry-size constant is what every entry takes. */
  lemma EntrySize(e: Entry)
    requires FieldsOk(EntryFields(e)) && |e.boardId| == BOARD_ID_SIZE
    ensures |PackAll(EntryFields(e))| == ENTRY_SIZE
  {
    hide OffsetOf, PackAll, FieldsOk;
    PackAllSize(EntryFields(e));
    BoardOffsets(e, BOARD_ID_SIZE);
  }

  /** Where entry k of the table begins. */
  function EntryStart(k: nat): nat {
    k * ENTRY_SIZE
  }

  predicate BoardsOk(entries: seq<Entry>) {
    forall k :: 0 <= k < |entries| ==> |entries[k].boardId| == BOARD_ID_SIZE
  }

  lemma {:induction false} EntryAt(entries: seq<Entry>, k: nat)
    requires BoardsOk(entries) && FieldsOk(TableFields(entries)) && k <= |entries|
    ensures |PackAll(TableFields(entries))| == EntryStart(|entries|)
    ensures k < |entries| ==> FieldsOk(EntryFields(entries[k]))
    ensures k < |entries| ==> Stands(PackAll(TableFields(entries)), EntryStart(k), PackAll(EntryFields(entries[k])))
    decreases |entries|
  {
    hide FieldsOk, PackAll, EntryFields;
    if entries == [] {
      NoFields([]);
    } else {
      var before, last := entries[..|entries| - 1], entries[|entries| - 1];
      JoinOk(TableFields(before), EntryFields(last));
      PackAllJoins(TableFields(before), EntryFields(last));
      EntrySize(last);
      EntryAt(before, if k < |before| then k else |before|);
    }
  }

  lemma JoinOk(a: seq<Field>, b: seq<Field>)
    ensures FieldsOk(a + b) <==> FieldsOk(a) && FieldsOk(b)
  {
    hide FieldOk;
    SuffixOk(a, b);
    if FieldsOk(a + b) {
      forall k | 0 <= k < |a|
        ensures FieldOk(a[k])
      {
        assert (a + b)[k] == a[k];
      }
    }
  }

  class VendorRamdiskTableBuilder {
    var entries: seq<Entry>
    var ramdiskTotalSize: nat
    var ramdiskNames: set<seq<Byte>>

    function Value(): Table
      reads this
    {
      Table(entries, ramdiskTotalSize, ramdiskNames)
    }

    constructor ()
      ensures Value() == EMPTY
    {
      entries, ramdiskTotalSize, ramdiskNames := [], 0, {};
    }

    method AddEntry(disk: Disk, path: string, kind: int, name: seq<Byte>, boardId: Option<seq<int>>) returns (err: Option<TableError>)
      modifies this
      ensures (Value(), err) == Add(old(Value()), disk, Request(path, kind, name, boardId))
    {
      var stripped := Stripped(name);
      if stripped == DEFAULT {
        return Some(BannedName);
      }
      if stripped in ramdiskNames {
        return Some(DuplicatedName);
      }
      ramdiskNames := ramdiskNames + {stripped};
      var id: seq<int>;
      if boardId.None? {
        id := seq(BOARD_ID_SIZE, _ => 0);
      } else {
        id := boardId.value;
      }
      if !WordsFit(id) {
        return Some(BoardIdOverflow);
      }
      if |id| != BOARD_ID_SIZE {
        return Some(BoardIdSize);
      }
      if path !in disk {
        return Some(NoSuchFile);
      }
      var ramdiskSize := |disk[path]|;
      entries := entries + [Entry(path, ramdiskSize, ramdiskTotalSize, kind, name, id)];
      ramdiskTotalSize := ramdiskTotalSize + ramdiskSize;
      err := None;
    }

    /** write_ramdisks_padded: the files are read again, unchanged. */
    method WriteRamdisksPadded(disk: Disk, out: OutputFile, alignment: nat)
      requires PageSizeOk(alignment) && TableOk(Value(), disk)
      modifies out
      ensures SizesOk(entries, disk) && out.data == Padded(old(out.data) + Ramdisks(disk, entries), alignment)
    {
      ghost var t := Value();
      assert SizesOk(entries, disk) by {
        TableSizes(t, disk);
      }
      assert entries[..0] == [];
      for k := 0 to |entries|
        invariant out.data == old(out.data) + Ramdisks(disk, entries[..k])
      {
        assert entries[..k + 1][..k] == entries[..k];
        out.Write(disk[entries[k].path]);
      }
      assert entries[..|entries|] == entries;
      out.PadFile(alignment);
    }

    /** write_entries_padded. */
    method WriteEntriesPadded(out: OutputFile, alignment: nat) returns (ok: bool)
      requires PageSizeOk(alignment)
      modifies out
      ensures ok <==> FieldsOk(TableFields(entries))
      ensures ok ==> out.data == Padded(old(out.data) + PackAll(TableFields(entries)), alignment)
    {
      hide FieldsOk, EntryFields, PackAll;
      ok := true;
      assert entries[..0] == [];
      NoFields([]);
      for k := 0 to |entries|
        invariant ok && FieldsOk(TableFields(entries[..k])) && out.data == old(out.data) + PackAll(TableFields(entries[..k]))
      {
        assert entries[..k + 1][..k] == entries[..k];
        JoinOk(TableFields(entries[..k]), EntryFields(entries[k]));
        ok := out.WriteFields(EntryFields(entries[k]));
        if !ok {
          PrefixFails(entries, k + 1);
          return;
        }
        PackAllJoins(TableFields(entries[..k]), EntryFields(entries[k]));
      }
      assert entries[..|entries|] == entries;
      out.PadFile(alignment);
    }
  }

  lemma TableSizes(t: Table, disk: Disk)
    requires TableOk(t, disk)
    ensures SizesOk(t.entries, disk) && BoardsOk(t.entries)
  {
    var es := t.entries;
    forall k | 0 <= k < |es|
      ensures es[k].path in disk && es[k].size == |disk[es[k].path]| && |es[k].boardId| == BOARD_ID_SIZE
    {
      assert EntryOk(t, disk, k);
    }
  }

  lemma {:induction false} PrefixFails(entries: seq<Entry>, k: nat)
    requires k <= |entries| && !FieldsOk(TableFields(entries[..k]))
    ensures !FieldsOk(TableFields(entries))
    decreases |entries|
  {
    hide FieldsOk, EntryFields;
    if k == |entries| {
      assert entries[..k] == entries;
    } else {
      var before := entries[..|entries| - 1];
      assert before[..k] == entries[..k];
      PrefixFails(before, k);
      JoinOk(TableFields(before), EntryFields(entries[|entries| - 1]));
    }
  }
}
