/** Vendor boot images of header versions 3 and 4 (tools/mkbootimg.py), and the way back to each ramdisk. */
module VendorBoot {
  import opened Division
  import opened Wrappers
  import opened BootImage
  import opened BootImageWriter
  import opened RamdiskTable

  const VENDOR_BOOT_MAGIC: seq<Byte> := [0x56, 0x4E, 0x44, 0x52, 0x42, 0x4F, 0x4F, 0x54]
  const VENDOR_BOOT_ARGS_SIZE := 2048
  const VENDOR_BOOT_IMAGE_HEADER_V3_SIZE := 2112
  const VENDOR_BOOT_IMAGE_HEADER_V4_SIZE := 2128

  /** The arguments of a boot image, with the ones that only vendor images have. */
  datatype VendorArgs = VendorArgs(common: Args, vendorCmdline: seq<Byte>, vendorRamdisk: Option<seq<Byte>>, bootconfig: Option<seq<Byte>>)

  predicate ArgsOk(v: VendorArgs) {
    PageSizeOk(v.common.pageSize) && (v.common.version == 3 || v.common.version == 4)
  }

  function VendorHeaderSize(version: int): nat {
    if version > 3 then VENDOR_BOOT_IMAGE_HEADER_V4_SIZE else VENDOR_BOOT_IMAGE_HEADER_V3_SIZE
  }

  /** The fields of both versions. */
  function SharedFields(v: VendorArgs, t: Table): seq<Field> {
    var a := v.common;
    [Text(8, VENDOR_BOOT_MAGIC), Word(a.version), Word(a.pageSize), Word(a.base + a.kernelOffset), Word(a.base + a.ramdiskOffset),
     Word(if a.version > 3 then t.total else FileSize(v.vendorRamdisk)), Text(VENDOR_BOOT_ARGS_SIZE, v.vendorCmdline),
     Word(a.base + a.tagsOffset), Text(BOOT_NAME_SIZE, a.board), Word(VendorHeaderSize(a.version)),
     Word(FileSize(a.dtb)), Quad(a.base + a.dtbOffset)]
  }

  function VendorFields(v: VendorArgs, t: Table): seq<Field> {
    SharedFields(v, t)
    + (if v.common.version > 3
       then [Word(|t.entries| * ENTRY_SIZE), Word(|t.entries|), Word(ENTRY_SIZE), Word(FileSize(v.bootconfig))]
       else [])
  }

  /** write_vendor_boot_header. */
  function VendorHeader(v: VendorArgs, t: Table): Result<seq<Byte>, Error>
    requires ArgsOk(v)
  {
    if FileSize(v.common.dtb) == 0 then Err(EmptyDtb)
    else if !FieldsOk(VendorFields(v, t)) then Err(StructError)
    else Ok(Padded(PackAll(VendorFields(v, t)), v.common.pageSize))
  }

  /** The files that write_vendor_boot_data puts behind the header. */
  function VendorFiles(v: VendorArgs, t: Table, disk: Disk): seq<Option<seq<Byte>>>
    requires TableOk(t, disk) && (v.common.version > 3 ==> FieldsOk(TableFields(t.entries)))
  {
    TableSizes(t, disk);
    if v.common.version > 3
    then [Some(Ramdisks(disk, t.entries)), v.common.dtb, Some(PackAll(TableFields(t.entries))), v.bootconfig]
    else [v.vendorRamdisk, v.common.dtb]
  }

  function VendorImage(v: VendorArgs, t: Table, disk: Disk): Result<seq<Byte>, Error>
    requires ArgsOk(v) && TableOk(t, disk)
  {
    var h := VendorHeader(v, t);
    if h.Err? then h
    else if v.common.version > 3 && !FieldsOk(TableFields(t.entries)) then Err(StructError)
    else Ok(AppendedAll(h.value, VendorFiles(v, t, disk), v.common.pageSize))
  }

  // ---- the header ----

  lemma VendorOffsets(v: VendorArgs, t: Table)
    ensures var fs := VendorFields(v, t);
      && |fs| >= 12 && OffsetOf(fs, 2) == 12 && OffsetOf(fs, 5) == 24 && OffsetOf(fs, 9) == 2096 && OffsetOf(fs, 10) == 2100
      && OffsetOf(fs, 12) == VENDOR_BOOT_IMAGE_HEADER_V3_SIZE
  {
    hide OffsetOf;
    var fs, c := VendorFields(v, t), SharedFields(v, t);
    assert fs[..12] == c;
    assert SizeOf(c[6]) == 2048 && SizeOf(c[8]) == 16 && SizeOf(c[11]) == 8;
    NextOffset(fs, c, 0);
    NextOffset(fs, c, 1);
    NextOffset(fs, c, 2);
    NextOffset(fs, c, 3);
    NextOffset(fs, c, 4);
    NextOffset(fs, c, 5);
    NextOffset(fs, c, 6);
    NextOffset(fs, c, 7);
    NextOffset(fs, c, 8);
    NextOffset(fs, c, 9);
    NextOffset(fs, c, 10);
    NextOffset(fs, c, 11);
  }

  /** The header-size constants of vendor images are the bytes written before padding. */
  lemma VendorHeaderSizeIs(v: VendorArgs, t: Table)
    requires ArgsOk(v) && FieldsOk(VendorFields(v, t))
    ensures |PackAll(VendorFields(v, t))| == VendorHeaderSize(v.common.version)
    ensures v.common.version > 3 ==> |VendorFields(v, t)| == 16 && OffsetOf(VendorFields(v, t), 13) == 2116 && OffsetOf(VendorFields(v, t), 14) == 2120
  {
    hide OffsetOf, FieldsOk;
    var fs := VendorFields(v, t);
    VendorOffsets(v, t);
    PackAllSize(fs);
    if v.common.version > 3 {
      OffsetSteps(fs, 12);
      OffsetSteps(fs, 13);
      OffsetSteps(fs, 14);
      OffsetSteps(fs, 15);
    }
  }

  /** The header takes the pages that its size says. */
  lemma VendorHeaderPages(v: VendorArgs, t: Table)
    requires ArgsOk(v) && VendorHeader(v, t).Ok?
    ensures var h, b := VendorHeader(v, t).value, PackAll(VendorFields(v, t));
      && FieldsOk(VendorFields(v, t)) && |h| == PageStart(v.common.pageSize, Pages(VendorHeaderSize(v.common.version), v.common.pageSize))
      && |b| <= |h| && h[..|b|] == b
  {
    hide VendorFields, FieldsOk, PackAll, Padding, Pages;
    VendorHeaderSizeIs(v, t);
    PaddingFills(v.common.pageSize, |PackAll(VendorFields(v, t))|);
  }

  // ---- reading back ----

  /** What a boot loader reads of one vendor ramdisk: its table entry, then its bytes. */
  datatype Fragment = Fragment(kind: int, name: seq<Byte>, content: seq<Byte>)

  /** The first byte of the table, from the header of the image alone. */
  function TableStart(image: seq<Byte>): nat
    requires PageSizeOk(WordAt(image, 12))
  {
    var p := WordAt(image, 12);
    PageStart(p, Pages(WordAt(image, 2096), p) + Pages(WordAt(image, 24), p) + Pages(WordAt(image, 2100), p))
  }

  function EntryPosition(image: seq<Byte>, k: nat): nat
    requires PageSizeOk(WordAt(image, 12))
  {
    ProductNotNegative(k, WordAt(image, 2120));
    TableStart(image) + k * WordAt(image, 2120)
  }

  function ReadFragment(image: seq<Byte>, k: nat): Fragment {
    var p := WordAt(image, 12);
    if !PageSizeOk(p) then Fragment(0, [], [])
    else
      var at := EntryPosition(image, k);
      var start := PageStart(p, Pages(WordAt(image, 2096), p)) + WordAt(image, at + 4);
      Fragment(WordAt(image, at + 8), Cut(image, at + 12, NAME_SIZE), Cut(image, start, WordAt(image, at)))
  }

  /** The header fields stand at the start of the image. */
  lemma VendorHeaderStands(v: VendorArgs, t: Table, disk: Disk)
    requires ArgsOk(v) && TableOk(t, disk) && VendorImage(v, t, disk).Ok?
    ensures FieldsOk(VendorFields(v, t)) && Stands(VendorImage(v, t, disk).value, 0, PackAll(VendorFields(v, t)))
  {
    hide VendorFields, AppendedAll, PackAll, Padded, VendorFiles, FieldsOk, Pages, TableOk, VendorHeader;
    VendorHeaderPages(v, t);
    var image, h, b := VendorImage(v, t, disk).value, VendorHeader(v, t).value, PackAll(VendorFields(v, t));
    AppendedAllPages(h, VendorFiles(v, t, disk), v.common.pageSize, Pages(VendorHeaderSize(v.common.version), v.common.pageSize));
    assert image[0..|h|] == h;
    SliceOfSlice(image, 0, |h|, 0, |b|);
    assert h[0..|b|] == b;
  }

  lemma VendorWords(v: VendorArgs, t: Table)
    ensures var fs := VendorFields(v, t);
      && |fs| >= 12 && fs[2] == Word(v.common.pageSize) && fs[9] == Word(VendorHeaderSize(v.common.version))
      && fs[5] == Word(if v.common.version > 3 then t.total else FileSize(v.vendorRamdisk))
      && fs[10] == Word(FileSize(v.common.dtb))
      && (v.common.version > 3 ==> |fs| == 16 && fs[13] == Word(|t.entries|) && fs[14] == Word(ENTRY_SIZE))
  {
  }

  /** The words that the reader uses. */
  lemma VendorWordsRead(v: VendorArgs, t: Table, disk: Disk)
    requires ArgsOk(v) && TableOk(t, disk) && VendorImage(v, t, disk).Ok?
    ensures var image := VendorImage(v, t, disk).value;
      && WordAt(image, 12) == v.common.pageSize && WordAt(image, 2096) == VendorHeaderSize(v.common.version)
      && WordAt(image, 24) == (if v.common.version > 3 then t.total else FileSize(v.vendorRamdisk))
      && WordAt(image, 2100) == FileSize(v.common.dtb)
      && (v.common.version > 3 ==> WordAt(image, 2116) == |t.entries| && WordAt(image, 2120) == ENTRY_SIZE)
  {
    hide VendorImage, FieldsOk, OffsetOf, PackAll, Stands, TableOk, WordAt, Cut, VendorFields, Pack;
    VendorWords(v, t);
    VendorHeaderStands(v, t, disk);
    VendorOffsets(v, t);
    VendorHeaderSizeIs(v, t);
    var image, fs := VendorImage(v, t, disk).value, VendorFields(v, t);
    FieldRead(image, 0, fs, 2);
    FieldRead(image, 0, fs, 5);
    FieldRead(image, 0, fs, 9);
    FieldRead(image, 0, fs, 10);
    if v.common.version > 3 {
      FieldRead(image, 0, fs, 13);
      FieldRead(image, 0, fs, 14);
    }
  }

  /** The first page of section k. */
  function SectionPage(v: VendorArgs, t: Table, disk: Disk, k: nat): nat
    requires ArgsOk(v) && TableOk(t, disk) && VendorImage(v, t, disk).Ok? && k < |VendorFiles(v, t, disk)|
  {
    Pages(VendorHeaderSize(v.common.version), v.common.pageSize) + PagesBefore(VendorFiles(v, t, disk), k, v.common.pageSize)
  }

  /** Every section of a vendor image is whole and page-aligned, where the page counts say. */
  lemma VendorSectionAt(v: VendorArgs, t: Table, disk: Disk, k: nat)
    requires ArgsOk(v) && TableOk(t, disk) && VendorImage(v, t, disk).Ok? && k < |VendorFiles(v, t, disk)|
    ensures var at := PageStart(v.common.pageSize, SectionPage(v, t, disk, k));
      Stands(VendorImage(v, t, disk).value, at, Content(VendorFiles(v, t, disk)[k])) && at % v.common.pageSize == 0
  {
    hide VendorFields, AppendedAll, PackAll, Padded, VendorFiles, FieldsOk, Pages, TableOk, VendorHeader, PageStart;
    VendorHeaderPages(v, t);
    FileAt(VendorHeader(v, t).value, VendorFiles(v, t, disk), v.common.pageSize, Pages(VendorHeaderSize(v.common.version), v.common.pageSize), k);
  }

  /** What stands within what stands. */
  lemma StandsWithin(image: seq<Byte>, at: nat, b: seq<Byte>, i: nat, c: seq<Byte>)
    requires Stands(image, at, b) && Stands(b, i, c)
    ensures Stands(image, at + i, c)
  {
    SliceOfSlice(image, at, |b|, i, i + |c|);
  }

  lemma TwoSections(v: VendorArgs, t: Table, disk: Disk)
    requires ArgsOk(v) && TableOk(t, disk) && VendorImage(v, t, disk).Ok? && v.common.version == 4
    ensures SizesOk(t.entries, disk) && |Ramdisks(disk, t.entries)| == t.total && BoardsOk(t.entries)
    ensures FieldsOk(TableFields(t.entries)) && |VendorFiles(v, t, disk)| == 4
    ensures Content(VendorFiles(v, t, disk)[0]) == Ramdisks(disk, t.entries)
    ensures Content(VendorFiles(v, t, disk)[2]) == PackAll(TableFields(t.entries))
    ensures var p := v.common.pageSize;
      var n := Pages(VendorHeaderSize(v.common.version), p);
      && SectionPage(v, t, disk, 0) == n
      && SectionPage(v, t, disk, 2) == n + Pages(t.total, p) + Pages(FileSize(v.common.dtb), p)
  {
    hide Pages, Ramdisks, PackAll, FieldsOk, VendorHeader, AppendedAll;
    TableSizes(t, disk);
    RamdiskAt(disk, t.entries, |t.entries|);
    var fs, p := VendorFiles(v, t, disk), v.common.pageSize;
    assert PagesBefore(fs, 0, p) == 0;
    assert PagesBefore(fs, 1, p) == Pages(FileSize(fs[0]), p);
    assert PagesBefore(fs, 2, p) == PagesBefore(fs, 1, p) + Pages(FileSize(fs[1]), p);
  }

  /** From the image alone, the reader finds kind, name and bytes of every ramdisk in the table. */
  lemma FragmentReadsBack(v: VendorArgs, t: Table, disk: Disk, k: nat)
    requires ArgsOk(v) && TableOk(t, disk) && VendorImage(v, t, disk).Ok? && v.common.version == 4 && k < |t.entries|
    ensures WordAt(VendorImage(v, t, disk).value, 2116) == |t.entries|
    ensures var e, f := t.entries[k], ReadFragment(VendorImage(v, t, disk).value, k);
      e.path in disk && f == Fragment(e.kind, Pack(Text(NAME_SIZE, e.name)), disk[e.path])
  {
    hide VendorImage, VendorFiles, Pages, Ramdisks, PackAll, FieldsOk, TableFields, Stands, PageStart, SectionPage, Content, OffsetOf, WordAt, Pack, PageSizeOk, Cut;
    var image, e, p := VendorImage(v, t, disk).value, t.entries[k], v.common.pageSize;
    assert EntryOk(t, disk, k);
    VendorWordsRead(v, t, disk);
    TwoSections(v, t, disk);
    VendorSectionAt(v, t, disk, 0);
    VendorSectionAt(v, t, disk, 2);
    EntryAt(t.entries, k);
    var table := PackAll(TableFields(t.entries));
    var at := TableStart(image) + EntryStart(k);
    StandsWithin(image, TableStart(image), table, EntryStart(k), PackAll(EntryFields(e)));
    BoardOffsets(e, 0);
    OffsetSteps(EntryFields(e), 0);
    FieldRead(image, at, EntryFields(e), 0);
    FieldRead(image, at, EntryFields(e), 1);
    FieldRead(image, at, EntryFields(e), 2);
    FieldRead(image, at, EntryFields(e), 3);
    RamdiskAt(disk, t.entries, k);
    var start := PageStart(p, Pages(VendorHeaderSize(v.common.version), p));
    StandsWithin(image, start, Ramdisks(disk, t.entries), e.offset, disk[e.path]);
    CutStands(image, start + e.offset, disk[e.path]);
  }

  lemma CutStands(image: seq<Byte>, at: nat, b: seq<Byte>)
    requires Stands(image, at, b)
    ensures Cut(image, at, |b|) == b
  {
  }

  // ---- the writer ----

  /** write_vendor_boot_header and write_vendor_boot_data, as main calls them. */
  method WriteVendorBoot(out: OutputFile, v: VendorArgs, builder: VendorRamdiskTableBuilder, disk: Disk) returns (err: Option<Error>)
    requires ArgsOk(v) && TableOk(builder.Value(), disk) && out.data == []
    modifies out
    ensures err.Some? ==> VendorImage(v, builder.Value(), disk) == Err(err.value)
    ensures err.None? ==> VendorImage(v, builder.Value(), disk) == Ok(out.data)
  {
    hide FieldsOk, VendorFields, PackAll, TableFields, Padded, TableOk, Ramdisks;
    ghost var t, p := builder.Value(), v.common.pageSize;
    if FileSize(v.common.dtb) == 0 {
      return Some(EmptyDtb);
    }
    var ok := out.WriteFields(VendorFields(v, Table(builder.entries, builder.ramdiskTotalSize, builder.ramdiskNames)));
    if !ok {
      return Some(StructError);
    }
    assert out.data == PackAll(VendorFields(v, t));
    out.PadFile(v.common.pageSize);
    ghost var h := out.data;
    assert VendorHeader(v, t) == Ok(h);
    if v.common.version > 3 {
      builder.WriteRamdisksPadded(disk, out, v.common.pageSize);
      out.WritePaddedFile(v.common.dtb, v.common.pageSize);
      ok := builder.WriteEntriesPadded(out, v.common.pageSize);
      if !ok {
        return Some(StructError);
      }
      out.WritePaddedFile(v.bootconfig, v.common.pageSize);
      FourFiles(h, VendorFiles(v, t, disk), p);
    } else {
      out.WritePaddedFile(v.vendorRamdisk, v.common.pageSize);
      out.WritePaddedFile(v.common.dtb, v.common.pageSize);
      TwoFiles(h, VendorFiles(v, t, disk), p);
    }
    err := None;
  }

  lemma TwoFiles(data: seq<Byte>, files: seq<Option<seq<Byte>>>, p: nat)
    requires PageSizeOk(p) && |files| >= 2
    ensures AppendedAll(data, files[..2], p) == Appended(Appended(data, files[0], p), files[1], p)
    ensures |files| == 2 ==> files[..2] == files
  {
    NextFile(data, files, 0, p);
    NextFile(data, files, 1, p);
  }

  lemma FourFiles(data: seq<Byte>, files: seq<Option<seq<Byte>>>, p: nat)
    requires PageSizeOk(p) && |files| == 4
    ensures AppendedAll(data, files, p) == Appended(Appended(Appended(Appended(data, files[0], p), files[1], p), files[2], p), files[3], p)
  {
    TwoFiles(data, files, p);
    NextFile(data, files, 2, p);
    NextFile(data, files, 3, p);
    assert files[..4] == files;
  }
}
