/**
 * Android boot images of header versions 0 to 2 (tools/mkbootimg.py): where every section
 * lands, what the header says about it, and how to read it back.
 */
module BootImage {
  import opened Division
  import opened Wrappers

  type Byte = b: int | 0 <= b < 0x100

  // ---- bits of integers ----

  /** The operator & on non-negative integers. */
  function BitAnd(a: nat, b: nat): nat {
    if a == 0 || b == 0 then 0 else (if a % 2 == 1 && b % 2 == 1 then 1 else 0) + 2 * BitAnd(a / 2, b / 2)
  }

  /** The operator |. */
  function BitOr(a: nat, b: nat): nat {
    if a == 0 then b else if b == 0 then a else (if a % 2 == 1 || b % 2 == 1 then 1 else 0) + 2 * BitOr(a / 2, b / 2)
  }

  function Pow2(k: nat): (p: nat)
    ensures p > 0
  {
    if k == 0 then 1 else 2 * Pow2(k - 1)
  }

  lemma HalvesModulo(x: nat, p: nat)
    requires p > 0
    ensures x % (2 * p) == x % 2 + 2 * (x / 2 % p)
  {
    SplitQuotient(x / 2, p);
    var q, r := x / 2 / p, x / 2 % p;
    assert x == 2 * (q * p + r) + x % 2;
    assert 2 * (q * p) == q * (2 * p);
    QuotientUnique(x, 2 * p, q, 2 * r + x % 2);
    SplitQuotient(x, 2 * p);
  }

  /** Masking with a power of two less one is the remainder. */
  lemma {:induction false} MaskIsRemainder(x: nat, k: nat)
    ensures BitAnd(x, Pow2(k) - 1) == x % Pow2(k)
  {
    if k > 0 {
      MaskIsRemainder(x / 2, k - 1);
      HalvesModulo(x, Pow2(k - 1));
      assert (Pow2(k) - 1) / 2 == Pow2(k - 1) - 1 && (Pow2(k) - 1) % 2 == 1;
      SmallRemainder(Pow2(k));
    }
  }

  lemma SmallRemainder(p: nat)
    requires p > 0
    ensures 0 % p == 0
  {
  }

  lemma OrWithEven(h: nat, y: nat)
    ensures BitOr(2 * h, y) == y % 2 + 2 * BitOr(h, y / 2)
  {
    if h == 0 {
      assert BitOr(0, y / 2) == y / 2;
    } else if y == 0 {
      assert BitOr(h, 0) == h;
    } else {
      assert 2 * h % 2 == 0 && 2 * h / 2 == h;
    }
  }

  /** Bits above and below a boundary do not meet. */
  lemma {:induction false} DisjointOr(x: nat, k: nat, y: nat)
    requires y < Pow2(k)
    ensures BitOr(x * Pow2(k), y) == x * Pow2(k) + y
  {
    if k > 0 {
      var h := x * Pow2(k - 1);
      assert x * Pow2(k) == 2 * h;
      hide BitOr;
      OrWithEven(h, y);
      DisjointOr(x, k - 1, y / 2);
    } else {
      assert BitOr(x, 0) == x;
    }
  }

  // ---- pages ----

  /** The page sizes that can be asked for. */
  predicate PageSizeOk(p: nat) {
    p == 2048 || p == 4096 || p == 8192 || p == 16384
  }

  /** pad_file: the zeros to write at a file position. */
  function Padding(p: nat, at: nat): nat
    requires PageSizeOk(p)
  {
    MaskIs(p, at);
    BitAnd(p - BitAnd(at, p - 1), p - 1)
  }

  lemma PageSizeIsPower(p: nat)
    requires PageSizeOk(p)
    ensures p == Pow2(if p == 2048 then 11 else if p == 4096 then 12 else if p == 8192 then 13 else 14)
  {
    assert Pow2(4) == 16;
    assert Pow2(8) == 16 * Pow2(4);
    assert Pow2(11) == 8 * Pow2(8);
    assert Pow2(12) == 2 * Pow2(11) && Pow2(13) == 2 * Pow2(12) && Pow2(14) == 2 * Pow2(13);
  }

  lemma MaskIs(p: nat, x: nat)
    requires PageSizeOk(p)
    ensures BitAnd(x, p - 1) == x % p < p
  {
    hide Pow2, BitAnd;
    PageSizeIsPower(p);
    MaskIsRemainder(x, if p == 2048 then 11 else if p == 4096 then 12 else if p == 8192 then 13 else 14);
  }

  /** get_number_of_pages. */
  function Pages(size: nat, p: nat): nat
    requires PageSizeOk(p)
  {
    (size + p - 1) / p
  }

  lemma SmallModulo(x: nat, p: nat)
    requires x <= p && 0 < p
    ensures x % p == if x == p then 0 else x
  {
  }

  lemma PaddingIs(p: nat, at: nat)
    requires PageSizeOk(p)
    ensures Padding(p, at) == (if at % p == 0 then 0 else p - at % p) && at % p < p
  {
    hide BitAnd;
    MaskIs(p, at);
    MaskIs(p, p - at % p);
    SmallModulo(p - at % p, p);
  }

  lemma PagesIs(p: nat, size: nat)
    requires PageSizeOk(p)
    ensures Pages(size, p) == size / p + (if size % p == 0 then 0 else 1)
  {
    SplitQuotient(size, p);
    var q, r := size / p, size % p;
    if r == 0 {
      QuotientUnique(size + p - 1, p, q, p - 1);
    } else {
      assert (q + 1) * p == q * p + p;
      QuotientUnique(size + p - 1, p, q + 1, r - 1);
    }
  }

  /** Padding fills the last page and no more. */
  lemma PaddingFills(p: nat, size: nat)
    requires PageSizeOk(p)
    ensures size + Padding(p, size) == Pages(size, p) * p && Padding(p, size) < p
  {
    hide Padding, Pages;
    PaddingIs(p, size);
    PagesIs(p, size);
    SplitQuotient(size, p);
    assert (size / p + 1) * p == size / p * p + p;
  }

  lemma MultipleModulo(k: nat, p: nat, r: nat)
    requires 0 < p && r < p
    ensures (k * p + r) % p == r
  {
    QuotientUnique(k * p + r, p, k, r);
    SplitQuotient(k * p + r, p);
  }

  /** Behind whole pages the padding is the same. */
  lemma PaddingAfterPages(p: nat, k: nat, size: nat)
    requires PageSizeOk(p)
    ensures Padding(p, k * p + size) == Padding(p, size)
  {
    hide Padding;
    PaddingIs(p, size);
    PaddingIs(p, k * p + size);
    SplitQuotient(size, p);
    assert k * p + size == (k + size / p) * p + size % p;
    MultipleModulo(k + size / p, p, size % p);
  }

  // ---- packing ----

  /** An argument of struct.pack: I, Q or a string of fixed size. */
  datatype Field = Word(value: int) | Quad(value: int) | Text(size: nat, bytes: seq<Byte>)

  function SizeOf(f: Field): nat {
    match f
    case Word(_) => 4
    case Quad(_) => 8
    case Text(size, _) => size
  }

  /** struct.pack raises an error for numbers that do not fit. */
  predicate FieldOk(f: Field) {
    match f
    case Word(v) => 0 <= v < 0x1_0000_0000
    case Quad(v) => 0 <= v < 0x1_0000_0000_0000_0000
    case Text(_, _) => true
  }

  function LittleEndian(v: nat, n: nat): (b: seq<Byte>)
    ensures |b| == n
  {
    if n == 0 then [] else [v % 0x100] + LittleEndian(v / 0x100, n - 1)
  }

  function FromLittleEndian(b: seq<Byte>): nat {
    if b == [] then 0 else b[0] + 0x100 * FromLittleEndian(b[1..])
  }

  function Zeros(n: nat): (z: seq<Byte>)
    ensures |z| == n
  {
    seq(n, _ => 0)
  }

  function Pack(f: Field): (b: seq<Byte>)
    requires FieldOk(f)
    ensures |b| == SizeOf(f)
  {
    match f
    case Word(v) => LittleEndian(v, 4)
    case Quad(v) => LittleEndian(v, 8)
    case Text(size, bytes) => if |bytes| >= size then bytes[..size] else bytes + Zeros(size - |bytes|)
  }

  predicate FieldsOk(fs: seq<Field>) {
    forall k :: 0 <= k < |fs| ==> FieldOk(fs[k])
  }

  function PackAll(fs: seq<Field>): seq<Byte>
    requires FieldsOk(fs)
  {
    if fs == [] then [] else PackAll(fs[..|fs| - 1]) + Pack(fs[|fs| - 1])
  }

  /** Where field k begins. */
  function OffsetOf(fs: seq<Field>, k: nat): nat
    requires k <= |fs|
  {
    if k == 0 then 0 else OffsetOf(fs, k - 1) + SizeOf(fs[k - 1])
  }

  lemma {:induction false} PackAllSize(fs: seq<Field>)
    requires FieldsOk(fs)
    ensures |PackAll(fs)| == OffsetOf(fs, |fs|)
  {
    if fs != [] {
      PackAllSize(fs[..|fs| - 1]);
      OffsetKept(fs, fs[..|fs| - 1], |fs| - 1);
    }
  }

  lemma {:induction false} OffsetKept(a: seq<Field>, b: seq<Field>, k: nat)
    requires k <= |a| && k <= |b| && a[..k] == b[..k]
    ensures OffsetOf(a, k) == OffsetOf(b, k)
  {
    if k > 0 {
      assert a[k - 1] == a[..k][k - 1] && b[k - 1] == b[..k][k - 1];
      assert a[..k - 1] == a[..k][..k - 1] && b[..k - 1] == b[..k][..k - 1];
      OffsetKept(a, b, k - 1);
    }
  }

  /** Field k lies at its offset. */
  lemma {:induction false} PackedAt(fs: seq<Field>, k: nat)
    requires FieldsOk(fs) && k < |fs|
    ensures var at := OffsetOf(fs, k);
      at + SizeOf(fs[k]) <= |PackAll(fs)| && PackAll(fs)[at..at + SizeOf(fs[k])] == Pack(fs[k])
    decreases |fs|
  {
    hide Pack, FieldOk;
    var before := fs[..|fs| - 1];
    PackAllSize(before);
    OffsetKept(fs, before, |before|);
    if k < |before| {
      PackedAt(before, k);
      OffsetKept(fs, before, k);
    }
  }

  lemma {:induction false} EndianRoundTrip(v: nat, n: nat)
    requires v < Pow256(n)
    ensures FromLittleEndian(LittleEndian(v, n)) == v
  {
    if n > 0 {
      assert LittleEndian(v, n)[1..] == LittleEndian(v / 0x100, n - 1);
      EndianRoundTrip(v / 0x100, n - 1);
    }
  }

  function Pow256(n: nat): nat {
    if n == 0 then 1 else 0x100 * Pow256(n - 1)
  }

  lemma Pow256Is()
    ensures Pow256(4) == 0x1_0000_0000 && Pow256(8) == 0x1_0000_0000_0000_0000
  {
    assert Pow256(4) == 0x100 * Pow256(3);
    assert Pow256(6) == 0x1_0000 * Pow256(4);
    assert Pow256(8) == 0x1_0000 * Pow256(6);
  }

  // ---- what goes into an image ----

  const BOOT_MAGIC: seq<Byte> := [0x41, 0x4E, 0x44, 0x52, 0x4F, 0x49, 0x44, 0x21]
  const BOOT_NAME_SIZE := 16
  const BOOT_ARGS_SIZE := 512
  const BOOT_EXTRA_ARGS_SIZE := 1024
  const BOOT_IMAGE_HEADER_V1_SIZE := 1648
  const BOOT_IMAGE_HEADER_V2_SIZE := 1660

  /** The parsed command line, with the contents of the files that were given. */
  datatype Args = Args(version: int, pageSize: nat, kernel: Option<seq<Byte>>, ramdisk: Option<seq<Byte>>, second: Option<seq<Byte>>,
                       recoveryDtbo: Option<seq<Byte>>, dtb: Option<seq<Byte>>,
                       base: int, kernelOffset: int, ramdiskOffset: int, secondOffset: int, tagsOffset: int, dtbOffset: int,
                       osVersion: nat, osPatchLevel: nat, board: seq<Byte>, cmdline: seq<Byte>, extraCmdline: seq<Byte>)

  datatype Error = StructError | EmptyDtb

  /** filesize; a file not given counts as empty. */
  function FileSize(f: Option<seq<Byte>>): nat {
    if f.None? then 0 else |f.value|
  }

  function Content(f: Option<seq<Byte>>): (b: seq<Byte>)
    ensures |b| == FileSize(f)
  {
    if f.None? then [] else f.value
  }

  /** get_recovery_dtbo_offset. */
  function RecoveryDtboOffset(a: Args): nat
    requires PageSizeOk(a.pageSize)
  {
    a.pageSize * (1 + Pages(FileSize(a.kernel), a.pageSize) + Pages(FileSize(a.ramdisk), a.pageSize) + Pages(FileSize(a.second), a.pageSize))
  }

  /** The fields of every header. */
  function CommonFields(a: Args, id: seq<Byte>): seq<Field> {
    [Text(8, BOOT_MAGIC),
     Word(FileSize(a.kernel)), Word(a.base + a.kernelOffset),
     Word(FileSize(a.ramdisk)), Word(if FileSize(a.ramdisk) > 0 then a.base + a.ramdiskOffset else 0),
     Word(FileSize(a.second)), Word(if FileSize(a.second) > 0 then a.base + a.secondOffset else 0),
     Word(a.base + a.tagsOffset), Word(a.pageSize), Word(a.version),
     Word(BitOr(a.osVersion * 2048, a.osPatchLevel)),
     Text(BOOT_NAME_SIZE, a.board), Text(BOOT_ARGS_SIZE, a.cmdline), Text(32, id), Text(BOOT_EXTRA_ARGS_SIZE, a.extraCmdline)]
  }

  /** The fields that version 1 has added. */
  function DtboFields(a: Args): seq<Field>
    requires PageSizeOk(a.pageSize)
  {
    if a.recoveryDtbo.Some? then [Word(FileSize(a.recoveryDtbo)), Quad(RecoveryDtboOffset(a))] else [Word(0), Quad(0)]
  }

  /** The fields written before the test for an empty DTB. */
  function FieldsBeforeDtb(a: Args, id: seq<Byte>): seq<Field>
    requires PageSizeOk(a.pageSize)
  {
    CommonFields(a, id)
    + (if a.version > 0 then DtboFields(a) else [])
    + (if a.version == 1 then [Word(BOOT_IMAGE_HEADER_V1_SIZE)] else if a.version == 2 then [Word(BOOT_IMAGE_HEADER_V2_SIZE)] else [])
  }

  /** The fields that version 2 has added. */
  function DtbFields(a: Args): seq<Field> {
    if a.version > 1 then [Word(FileSize(a.dtb)), Quad(a.base + a.dtbOffset)] else []
  }

  function Fields(a: Args, id: seq<Byte>): seq<Field>
    requires PageSizeOk(a.pageSize)
  {
    FieldsBeforeDtb(a, id) + DtbFields(a)
  }

  /** Data padded to whole pages. */
  function Padded(data: seq<Byte>, p: nat): seq<Byte>
    requires PageSizeOk(p)
  {
    data + Zeros(Padding(p, |data|))
  }

  /** write_padded_file. */
  function Appended(data: seq<Byte>, f: Option<seq<Byte>>, p: nat): seq<Byte>
    requires PageSizeOk(p)
  {
    if f.None? then data else Padded(data + f.value, p)
  }

  function AppendedAll(data: seq<Byte>, files: seq<Option<seq<Byte>>>, p: nat): seq<Byte>
    requires PageSizeOk(p)
  {
    if files == [] then data else Appended(AppendedAll(data, files[..|files| - 1], p), files[|files| - 1], p)
  }

  /** The files behind the header, in order. */
  function Files(a: Args): seq<Option<seq<Byte>>> {
    [a.kernel, a.ramdisk, a.second]
    + (if 0 < a.version < 3 then [a.recoveryDtbo] else [])
    + (if a.version == 2 then [a.dtb] else [])
  }

  /** write_header, for versions up to 2; id is the image's digest. */
  function Header(a: Args, id: seq<Byte>): Result<seq<Byte>, Error>
    requires PageSizeOk(a.pageSize) && a.version < 3
  {
    if !FieldsOk(FieldsBeforeDtb(a, id)) then Err(StructError)
    else if a.version > 1 && FileSize(a.dtb) == 0 then Err(EmptyDtb)
    else if !FieldsOk(Fields(a, id)) then Err(StructError)
    else Ok(Padded(PackAll(Fields(a, id)), a.pageSize))
  }

  /** The whole image: write_header, then write_data. */
  function Image(a: Args, id: seq<Byte>): Result<seq<Byte>, Error>
    requires PageSizeOk(a.pageSize) && a.version < 3
  {
    var h := Header(a, id);
    if h.Err? then h else Ok(AppendedAll(h.value, Files(a), a.pageSize))
  }

  // ---- the header ----

  function HeaderSize(version: int): nat {
    if version == 1 then BOOT_IMAGE_HEADER_V1_SIZE else if version == 2 then BOOT_IMAGE_HEADER_V2_SIZE else 1632
  }

  /** Offsets of the fields, computed one from the other. */
  lemma {:induction false} OffsetSteps(fs: seq<Field>, k: nat)
    requires k < |fs|
    ensures OffsetOf(fs, k + 1) == OffsetOf(fs, k) + SizeOf(fs[k]) && OffsetOf(fs, 0) == 0
  {
  }

  lemma CommonOffsets(a: Args, id: seq<Byte>)
    requires PageSizeOk(a.pageSize)
    ensures var fs := Fields(a, id);
      && |fs| >= 15 && fs[..15] == CommonFields(a, id)
      && OffsetOf(fs, 1) == 8 && OffsetOf(fs, 3) == 16 && OffsetOf(fs, 5) == 24 && OffsetOf(fs, 8) == 36 && OffsetOf(fs, 9) == 40
      && OffsetOf(fs, 10) == 44 && OffsetOf(fs, 12) == 64 && OffsetOf(fs, 14) == 608 && OffsetOf(fs, 15) == 1632
  {
    hide OffsetOf, Padding, Pages, BitOr;
    var fs, c := Fields(a, id), CommonFields(a, id);
    assert fs[..15] == c;
    CommonSizes(a, id);
    hide CommonFields, Fields;
    NextOffset(fs, c, 0);
    NextOffset(fs, c, 1);
    NextOffset(fs, c, 2);
    NextOffset(fs, c, 3);
    NextOffset(fs, c, 4);
    NextOffset(fs, c, 5);
    NextOffset(fs, c, 6);
    NextOffset(fs, c, 7);
    NextOffset(fs, c, 8);
    NextOffset(fs, c, 9);
    NextOffset(fs, c, 10);
    NextOffset(fs, c, 11);
    NextOffset(fs, c, 12);
    NextOffset(fs, c, 13);
    NextOffset(fs, c, 14);
  }

  lemma NextOffset(fs: seq<Field>, c: seq<Field>, k: nat)
    requires |c| <= |fs| && fs[..|c|] == c && k < |c|
    ensures OffsetOf(fs, k + 1) == OffsetOf(fs, k) + SizeOf(c[k]) && OffsetOf(fs, 0) == 0
  {
    assert fs[k] == fs[..|c|][k];
  }

  lemma CommonSizes(a: Args, id: seq<Byte>)
    ensures var c := CommonFields(a, id);
      && |c| == 15 && SizeOf(c[0]) == 8 && (forall k :: 1 <= k < 11 ==> SizeOf(c[k]) == 4)
      && SizeOf(c[11]) == 16 && SizeOf(c[12]) == 512 && SizeOf(c[13]) == 32 && SizeOf(c[14]) == 1024
  {
    hide BitOr;
  }

  /** The header-size constants of versions 1 and 2 are the bytes written before padding. */
  lemma HeaderSizeIs(a: Args, id: seq<Byte>)
    requires PageSizeOk(a.pageSize) && a.version < 3 && FieldsOk(Fields(a, id))
    ensures |PackAll(Fields(a, id))| == HeaderSize(a.version)
    ensures a.version > 0 ==> |Fields(a, id)| > 17 && Fields(a, id)[17] == Word(HeaderSize(a.version)) && OffsetOf(Fields(a, id), 17) == 1644
  {
    hide OffsetOf, BitOr, CommonFields, RecoveryDtboOffset, FieldsOk;
    var fs := Fields(a, id);
    CommonOffsets(a, id);
    PackAllSize(fs);
    CommonSizes(a, id);
    if a.version > 0 {
      OffsetSteps(fs, 15);
      OffsetSteps(fs, 16);
      OffsetSteps(fs, 17);
      if a.version > 1 {
        OffsetSteps(fs, 18);
        OffsetSteps(fs, 19);
      }
    }
  }

  // ---- where the sections land ----

  /** The first byte of page n. */
  function PageStart(p: nat, n: nat): nat {
    n * p
  }

  lemma StartsPage(p: nat, n: nat)
    requires 0 < p
    ensures PageStart(p, n) % p == 0
  {
    MultipleModulo(n, p, 0);
  }

  /** Pages taken by the first k files. */
  function PagesBefore(files: seq<Option<seq<Byte>>>, k: nat, p: nat): nat
    requires PageSizeOk(p) && k <= |files|
  {
    if k == 0 then 0 else PagesBefore(files, k - 1, p) + Pages(FileSize(files[k - 1]), p)
  }

  /** Appending to whole pages: the file, then padding to whole pages. */
  lemma AppendedPages(data: seq<Byte>, f: Option<seq<Byte>>, p: nat, h: nat)
    requires PageSizeOk(p) && |data| == PageStart(p, h)
    ensures var r := Appended(data, f, p);
      && |r| == PageStart(p, h + Pages(FileSize(f), p)) && r[..|data|] == data
      && |data| + FileSize(f) <= |r| && r[|data|..|data| + FileSize(f)] == Content(f)
  {
    hide Padding, Pages;
    var n := FileSize(f);
    PaddingAfterPages(p, h, n);
    PaddingFills(p, n);
    PagesIs(p, n);
    assert (h + Pages(n, p)) * p == h * p + Pages(n, p) * p;
    if f.None? {
      NoPages(p);
    }
  }

  lemma NoPages(p: nat)
    requires PageSizeOk(p)
    ensures Pages(0, p) == 0
  {
  }

  lemma {:induction false} PagesKept(files: seq<Option<seq<Byte>>>, g: seq<Option<seq<Byte>>>, k: nat, p: nat)
    requires PageSizeOk(p) && k <= |files| && k <= |g| && files[..k] == g[..k]
    ensures PagesBefore(files, k, p) == PagesBefore(g, k, p)
  {
    hide Pages;
    if k > 0 {
      assert files[k - 1] == files[..k][k - 1] && g[k - 1] == g[..k][k - 1];
      assert files[..k - 1] == files[..k][..k - 1] && g[..k - 1] == g[..k][..k - 1];
      PagesKept(files, g, k - 1, p);
    }
  }

  /** After h pages the files follow, each from a page boundary on. */
  lemma {:induction false} AppendedAllPages(data: seq<Byte>, files: seq<Option<seq<Byte>>>, p: nat, h: nat)
    requires PageSizeOk(p) && |data| == PageStart(p, h)
    ensures var r := AppendedAll(data, files, p);
      && |r| == PageStart(p, h + PagesBefore(files, |files|, p)) && |data| <= |r| && r[..|data|] == data
    decreases |files|
  {
    hide Appended, Pages, PageStart;
    if files != [] {
      var before := files[..|files| - 1];
      AppendedAllPages(data, before, p, h);
      PagesKept(files, before, |before|, p);
      AppendedPages(AppendedAll(data, before, p), files[|files| - 1], p, h + PagesBefore(before, |before|, p));
    }
  }

  /** File k begins behind the pages of the header and of the files before it, on a page boundary. */
  lemma {:induction false} FileAt(data: seq<Byte>, files: seq<Option<seq<Byte>>>, p: nat, h: nat, k: nat)
    requires PageSizeOk(p) && |data| == PageStart(p, h) && k < |files|
    ensures var at := PageStart(p, h + PagesBefore(files, k, p));
      var r := AppendedAll(data, files, p);
      at + FileSize(files[k]) <= |r| && r[at..at + FileSize(files[k])] == Content(files[k]) && at % p == 0
    decreases |files|
  {
    hide Appended, Pages, Content, PageStart;
    var before, last := files[..|files| - 1], files[|files| - 1];
    StartsPage(p, h + PagesBefore(files, k, p));
    AppendedAllPages(data, before, p, h);
    PagesKept(files, before, |before|, p);
    AppendedPages(AppendedAll(data, before, p), last, p, h + PagesBefore(before, |before|, p));
    if k < |before| {
      FileAt(data, before, p, h, k);
      PagesKept(files, before, k, p);
    }
  }

  /** The header takes one page. */
  lemma HeaderPage(a: Args, id: seq<Byte>)
    requires PageSizeOk(a.pageSize) && a.version < 3 && Header(a, id).Ok?
    ensures var h := Header(a, id).value;
      && |h| == PageStart(a.pageSize, 1) && |PackAll(Fields(a, id))| <= |h| && h[..|PackAll(Fields(a, id))|] == PackAll(Fields(a, id))
  {
    hide Fields, FieldsOk, PackAll, Padding, Pages;
    HeaderSizeIs(a, id);
    var n := |PackAll(Fields(a, id))|;
    PaddingFills(a.pageSize, n);
    OnePage(n, a.pageSize);
  }

  lemma OnePage(n: nat, p: nat)
    requires PageSizeOk(p) && 0 < n <= p
    ensures Pages(n, p) == 1
  {
    QuotientUnique(n + p - 1, p, 1, n - 1);
  }

  /** Section k of the image lies at this offset. */
  function SectionOffset(a: Args, k: nat): nat
    requires PageSizeOk(a.pageSize) && k <= |Files(a)|
  {
    PageStart(a.pageSize, 1 + PagesBefore(Files(a), k, a.pageSize))
  }

  /** Every section of the image is where the page counts say, whole and page-aligned. */
  lemma SectionAt(a: Args, id: seq<Byte>, k: nat)
    requires PageSizeOk(a.pageSize) && a.version < 3 && Image(a, id).Ok? && k < |Files(a)|
    ensures var image, at, f := Image(a, id).value, SectionOffset(a, k), Files(a)[k];
      at % a.pageSize == 0 && at + FileSize(f) <= |image| && image[at..at + FileSize(f)] == Content(f)
  {
    hide Header, AppendedAll, Content, Files;
    HeaderPage(a, id);
    FileAt(Header(a, id).value, Files(a), a.pageSize, 1, k);
  }

  /** get_recovery_dtbo_offset is the position at which the recovery image is really written. */
  lemma RecoveryDtboLands(a: Args, id: seq<Byte>)
    requires PageSizeOk(a.pageSize) && 0 < a.version < 3 && Image(a, id).Ok? && a.recoveryDtbo.Some?
    ensures var image, at, b := Image(a, id).value, RecoveryDtboOffset(a), a.recoveryDtbo.value;
      at % a.pageSize == 0 && at + |b| <= |image| && image[at..at + |b|] == b
  {
    hide Image, Pages;
    SectionAt(a, id, 3);
    FirstThree(a);
  }

  lemma FirstThree(a: Args)
    requires PageSizeOk(a.pageSize)
    ensures SectionOffset(a, 0) == a.pageSize
    ensures var p := a.pageSize;
      var n1 := 1 + Pages(FileSize(a.kernel), p);
      var n2 := n1 + Pages(FileSize(a.ramdisk), p);
      var n3 := n2 + Pages(FileSize(a.second), p);
      && SectionOffset(a, 1) == PageStart(p, n1) && SectionOffset(a, 2) == PageStart(p, n2) && SectionOffset(a, 3) == PageStart(p, n3)
      && (a.version == 2 ==> SectionOffset(a, 4) == PageStart(p, n3 + Pages(FileSize(a.recoveryDtbo), p)))
    ensures SectionOffset(a, 3) == RecoveryDtboOffset(a)
  {
    hide Pages;
    var fs, p := Files(a), a.pageSize;
    assert PagesBefore(fs, 0, p) == 0;
    assert PagesBefore(fs, 1, p) == Pages(FileSize(a.kernel), p);
    assert PagesBefore(fs, 2, p) == Pages(FileSize(a.kernel), p) + Pages(FileSize(a.ramdisk), p);
    assert PagesBefore(fs, 3, p) == Pages(FileSize(a.kernel), p) + Pages(FileSize(a.ramdisk), p) + Pages(FileSize(a.second), p);
    if a.version == 2 {
      assert PagesBefore(fs, 4, p) == PagesBefore(fs, 3, p) + Pages(FileSize(a.recoveryDtbo), p);
    }
  }

  // ---- reading an image back ----

  function Cut(image: seq<Byte>, at: nat, n: nat): seq<Byte> {
    if at + n <= |image| then image[at..at + n] else []
  }

  function WordAt(image: seq<Byte>, at: nat): nat {
    FromLittleEndian(Cut(image, at, 4))
  }

  datatype Sections = Sections(kernel: seq<Byte>, ramdisk: seq<Byte>, second: seq<Byte>, recoveryDtbo: seq<Byte>, dtb: seq<Byte>)

  /** What a boot loader reads, from the sizes in the header and page rounding alone. */
  function ReadImage(image: seq<Byte>): Sections {
    var p, version := WordAt(image, 36), WordAt(image, 40);
    if !PageSizeOk(p) then Sections([], [], [], [], [])
    else
      var k, r, s := WordAt(image, 8), WordAt(image, 16), WordAt(image, 24);
      var d := if version > 0 then WordAt(image, 1632) else 0;
      var t := if version > 1 then WordAt(image, 1648) else 0;
      var n1 := 1 + Pages(k, p);
      var n2 := n1 + Pages(r, p);
      var n3 := n2 + Pages(s, p);
      Sections(Cut(image, p, k), Cut(image, PageStart(p, n1), r), Cut(image, PageStart(p, n2), s), Cut(image, PageStart(p, n3), d),
               Cut(image, PageStart(p, n3 + Pages(d, p)), t))
  }

  /** Packed fields stand in the image from this position on. */
  predicate Stands(image: seq<Byte>, at: nat, b: seq<Byte>) {
    at + |b| <= |image| && image[at..at + |b|] == b
  }

  lemma SliceOfSlice(s: seq<Byte>, at: nat, n: nat, i: nat, j: nat)
    requires i <= j <= n && at + n <= |s|
    ensures s[at..at + n][i..j] == s[at + i..at + j]
  {
    var t := s[at..at + n];
    forall x | i <= x < j
      ensures t[x] == s[at + x]
    {
    }
  }

  /** A field among packed fields, read from the image. */
  lemma FieldRead(image: seq<Byte>, at: nat, fs: seq<Field>, k: nat)
    requires FieldsOk(fs) && Stands(image, at, PackAll(fs)) && k < |fs|
    ensures Cut(image, at + OffsetOf(fs, k), SizeOf(fs[k])) == Pack(fs[k])
    ensures fs[k].Word? ==> WordAt(image, at + OffsetOf(fs, k)) == fs[k].value
  {
    hide FieldsOk, OffsetOf, PackAll;
    PackedAt(fs, k);
    var i, n := OffsetOf(fs, k), |PackAll(fs)|;
    SliceOfSlice(image, at, n, i, i + SizeOf(fs[k]));
    if fs[k].Word? {
      WordFits(fs, k);
      EndianRoundTrip(fs[k].value, 4);
    }
  }

  lemma WordFits(fs: seq<Field>, k: nat)
    requires FieldsOk(fs) && k < |fs| && fs[k].Word?
    ensures 0 <= fs[k].value < Pow256(4)
  {
    assert FieldOk(fs[k]);
    Pow256Is();
  }

  /** The header fields stand at the start of the image. */
  lemma HeaderStands(a: Args, id: seq<Byte>)
    requires PageSizeOk(a.pageSize) && a.version < 3 && Image(a, id).Ok?
    ensures FieldsOk(Fields(a, id)) && Stands(Image(a, id).value, 0, PackAll(Fields(a, id)))
  {
    hide Fields, AppendedAll, PackAll, Padded, Files, FieldsOk, FieldsBeforeDtb;
    var image, h, b := Image(a, id).value, Header(a, id).value, PackAll(Fields(a, id));
    HeaderPage(a, id);
    AppendedAllPages(h, Files(a), a.pageSize, 1);
    assert image[0..|h|] == h;
    SliceOfSlice(image, 0, |h|, 0, |b|);
    assert h[0..|b|] == b;
  }

  /** A field of the header, read from the image. */
  lemma HeaderFieldRead(a: Args, id: seq<Byte>, k: nat)
    requires PageSizeOk(a.pageSize) && a.version < 3 && Image(a, id).Ok? && k < |Fields(a, id)|
    ensures var f, at := Fields(a, id)[k], OffsetOf(Fields(a, id), k);
      && Cut(Image(a, id).value, at, SizeOf(f)) == Pack(f)
      && (f.Word? ==> WordAt(Image(a, id).value, at) == f.value)
  {
    hide Fields, OffsetOf, PackAll, Image, WordAt, Pack, SizeOf;
    HeaderStands(a, id);
    FieldRead(Image(a, id).value, 0, Fields(a, id), k);
  }

  /** The words that the reader uses. */
  lemma SizesRead(a: Args, id: seq<Byte>)
    requires PageSizeOk(a.pageSize) && 0 <= a.version < 3 && Image(a, id).Ok?
    ensures var image := Image(a, id).value;
      && WordAt(image, 8) == FileSize(a.kernel) && WordAt(image, 16) == FileSize(a.ramdisk) && WordAt(image, 24) == FileSize(a.second)
      && WordAt(image, 36) == a.pageSize && WordAt(image, 40) == a.version
      && (a.version > 0 ==> WordAt(image, 1632) == FileSize(a.recoveryDtbo))
      && (a.version > 1 ==> WordAt(image, 1648) == FileSize(a.dtb))
  {
    hide WordAt, Image, OffsetOf, BitOr, RecoveryDtboOffset, PackAll, Pack;
    CommonOffsets(a, id);
    var fs := Fields(a, id);
    assert fs[1] == fs[..15][1] && fs[3] == fs[..15][3] && fs[5] == fs[..15][5] && fs[8] == fs[..15][8] && fs[9] == fs[..15][9];
    HeaderFieldRead(a, id, 1);
    HeaderFieldRead(a, id, 3);
    HeaderFieldRead(a, id, 5);
    HeaderFieldRead(a, id, 8);
    HeaderFieldRead(a, id, 9);
    if a.version > 0 {
      HeaderFieldRead(a, id, 15);
      if a.version > 1 {
        OffsetSteps(fs, 15);
        OffsetSteps(fs, 16);
        OffsetSteps(fs, 17);
        HeaderFieldRead(a, id, 18);
      }
    }
  }

  /** What was put in; versions without a section have none. */
  function Contents(a: Args): Sections {
    Sections(Content(a.kernel), Content(a.ramdisk), Content(a.second),
             if a.version > 0 then Content(a.recoveryDtbo) else [], if a.version > 1 then Content(a.dtb) else [])
  }

  /** Reading an image back returns every section. */
  lemma ReadsBack(a: Args, id: seq<Byte>)
    requires PageSizeOk(a.pageSize) && 0 <= a.version < 3 && Image(a, id).Ok?
    ensures ReadImage(Image(a, id).value) == Contents(a)
  {
    hide WordAt, Image, Pages, Content, RecoveryDtboOffset, PageStart, SectionOffset, PageSizeOk, Files, FileSize, Cut;
    SizesRead(a, id);
    FirstThree(a);
    SectionsAre(a);
    SectionRead(a, id, 0);
    SectionRead(a, id, 1);
    SectionRead(a, id, 2);
    NothingCut(Image(a, id).value);
    if a.version > 0 {
      SectionRead(a, id, 3);
      if a.version > 1 {
        SectionRead(a, id, 4);
      }
    }
  }

  lemma SectionRead(a: Args, id: seq<Byte>, k: nat)
    requires PageSizeOk(a.pageSize) && a.version < 3 && Image(a, id).Ok? && k < |Files(a)|
    ensures Cut(Image(a, id).value, SectionOffset(a, k), FileSize(Files(a)[k])) == Content(Files(a)[k])
  {
    hide Image, SectionOffset, Content, Files;
    SectionAt(a, id, k);
  }

  lemma SectionsAre(a: Args)
    ensures |Files(a)| >= 3 && Files(a)[0] == a.kernel && Files(a)[1] == a.ramdisk && Files(a)[2] == a.second
    ensures 0 < a.version < 3 ==> |Files(a)| >= 4 && Files(a)[3] == a.recoveryDtbo
    ensures a.version == 2 ==> |Files(a)| >= 5 && Files(a)[4] == a.dtb
  {
  }

  lemma NothingCut(image: seq<Byte>)
    ensures forall at: nat :: Cut(image, at, 0) == []
  {
  }

  // ---- the command line ----

  /** AsciizBytes: the text with a terminator, or nothing if that is too long. */
  function Asciiz(bufsize: nat, text: seq<Byte>): Option<seq<Byte>> {
    if |text| + 1 > bufsize then None else Some(text + [0])
  }

  /** The two fields that an asciiz command line is split into. */
  function SplitCmdline(cmdline: seq<Byte>): (seq<Byte>, seq<Byte>) {
    if |cmdline| < BOOT_ARGS_SIZE then (cmdline + [0], [])
    else (cmdline[..BOOT_ARGS_SIZE - 1] + [0], cmdline[BOOT_ARGS_SIZE - 1..])
  }

  /** The characters before the first terminator. */
  function Terminated(b: seq<Byte>): seq<Byte> {
    if b == [] || b[0] == 0 then [] else [b[0]] + Terminated(b[1..])
  }

  predicate NoZero(b: seq<Byte>) {
    forall k :: 0 <= k < |b| ==> b[k] != 0
  }

  lemma {:induction false} TerminatedIs(text: seq<Byte>, rest: seq<Byte>)
    requires NoZero(text) && (rest == [] || rest[0] == 0)
    ensures Terminated(text + rest) == text
  {
    if text == [] {
      assert text + rest == rest;
    } else {
      assert (text + rest)[1..] == text[1..] + rest;
      TerminatedIs(text[1..], rest);
    }
  }

  /** The command line, read from the two fields of the image. */
  function ReadCmdline(image: seq<Byte>): seq<Byte> {
    Terminated(Cut(image, 64, BOOT_ARGS_SIZE)) + Terminated(Cut(image, 608, BOOT_EXTRA_ARGS_SIZE))
  }

  /** The parts of a split command line, joined after packing. */
  lemma SplitJoins(text: seq<Byte>)
    requires NoZero(text) && |text| + 1 <= BOOT_ARGS_SIZE + BOOT_EXTRA_ARGS_SIZE - 1
    ensures var (c, e) := SplitCmdline(text + [0]);
      && |c| <= BOOT_ARGS_SIZE && |e| <= BOOT_EXTRA_ARGS_SIZE
      && Terminated(Pack(Text(BOOT_ARGS_SIZE, c))) + Terminated(Pack(Text(BOOT_EXTRA_ARGS_SIZE, e))) == text
  {
    hide Terminated, Pack;
    if |text| + 1 < BOOT_ARGS_SIZE {
      assert text + [0] + [0] == text + [0, 0];
      PackedText(BOOT_ARGS_SIZE, text, [0, 0]);
      PackedText(BOOT_EXTRA_ARGS_SIZE, [], []);
      assert text + [] == text;
    } else {
      var z, first, rest := text + [0], text[..BOOT_ARGS_SIZE - 1], text[BOOT_ARGS_SIZE - 1..];
      assert z[..BOOT_ARGS_SIZE - 1] == first && z[BOOT_ARGS_SIZE - 1..] == rest + [0];
      PackedText(BOOT_ARGS_SIZE, first, [0]);
      PackedText(BOOT_EXTRA_ARGS_SIZE, rest, [0]);
      assert first + rest == text;
    }
  }

  /** A packed field holds the text up to its terminator. */
  lemma PackedText(size: nat, text: seq<Byte>, rest: seq<Byte>)
    requires NoZero(text) && (rest == [] || rest[0] == 0) && |text + rest| <= size
    ensures Terminated(Pack(Text(size, text + rest))) == text
  {
    hide Terminated, NoZero;
    var b := Pack(Text(size, text + rest));
    assert b == text + b[|text|..];
    TerminatedIs(text, b[|text|..]);
  }

  /** A command line that is accepted and split comes back joined. */
  lemma CmdlineReadsBack(a: Args, id: seq<Byte>, text: seq<Byte>)
    requires PageSizeOk(a.pageSize) && a.version < 3 && Image(a, id).Ok? && NoZero(text)
    requires var z := Asciiz(BOOT_ARGS_SIZE + BOOT_EXTRA_ARGS_SIZE - 1, text);
      z.Some? && (a.cmdline, a.extraCmdline) == SplitCmdline(z.value)
    ensures ReadCmdline(Image(a, id).value) == text
  {
    hide Image, Cut, OffsetOf, BitOr, Pack, Terminated, RecoveryDtboOffset;
    CommonOffsets(a, id);
    var fs := Fields(a, id);
    assert fs[12] == fs[..15][12] == Text(BOOT_ARGS_SIZE, a.cmdline) && fs[14] == fs[..15][14] == Text(BOOT_EXTRA_ARGS_SIZE, a.extraCmdline);
    HeaderFieldRead(a, id, 12);
    HeaderFieldRead(a, id, 14);
    SplitJoins(text);
  }

  // ---- versions ----

  /** parse_os_version and parse_os_patch_level on the numbers found, shifted together into one word. */
  function OsWord(major: nat, minor: nat, patch: nat, year: nat, month: nat): nat {
    BitOr(OsVersion(major, minor, patch) * 2048, OsPatchLevel(year, month))
  }

  function OsVersion(major: nat, minor: nat, patch: nat): nat {
    BitOr(BitOr(major * 16384, minor * 128), patch)
  }

  function OsPatchLevel(year: nat, month: nat): nat {
    BitOr(year * 16, month)
  }

  /** The five numbers keep to their own bits: the word is below 2^32 and gives them back. */
  lemma OsWordUnpacks(major: nat, minor: nat, patch: nat, year: nat, month: nat)
    requires major < 128 && minor < 128 && patch < 128 && year < 128 && 0 < month <= 12
    ensures var w := OsWord(major, minor, patch, year, month);
      && w < 0x1_0000_0000
      && w / 0x200_0000 == major && w / 0x4_0000 % 128 == minor && w / 2048 % 128 == patch
      && w / 16 % 128 == year && w % 16 == month
  {
    OsWordIs(major, minor, patch, year, month);
    hide OsWord;
    var w, low := OsWord(major, minor, patch, year, month), year * 16 + month;
    QuotientUnique(w, 0x200_0000, major, minor * 0x4_0000 + patch * 2048 + low);
    QuotientUnique(w, 0x4_0000, major * 128 + minor, patch * 2048 + low);
    MultipleModulo(major, 128, minor);
    QuotientUnique(w, 2048, major * 16384 + minor * 128 + patch, low);
    MultipleModulo(major * 128 + minor, 128, patch);
    QuotientUnique(w, 16, (major * 16384 + minor * 128 + patch) * 128 + year, month);
    MultipleModulo(major * 16384 + minor * 128 + patch, 128, year);
    MultipleModulo((major * 16384 + minor * 128 + patch) * 128 + year, 16, month);
  }

  lemma OsWordIs(major: nat, minor: nat, patch: nat, year: nat, month: nat)
    requires major < 128 && minor < 128 && patch < 128 && year < 128 && 0 < month <= 12
    ensures OsWord(major, minor, patch, year, month) == (major * 16384 + minor * 128 + patch) * 2048 + (year * 16 + month)
  {
    PowersOfTwo();
    hide BitOr, Pow2;
    DisjointOr(major, 14, minor * 128);
    DisjointOr(major * 128 + minor, 7, patch);
    DisjointOr(year, 4, month);
    DisjointOr(major * 16384 + minor * 128 + patch, 11, year * 16 + month);
  }

  lemma PowersOfTwo()
    ensures Pow2(4) == 16 && Pow2(7) == 128 && Pow2(11) == 2048 && Pow2(14) == 16384
  {
    assert Pow2(7) == 8 * Pow2(4);
    assert Pow2(11) == 16 * Pow2(7);
    assert Pow2(14) == 8 * Pow2(11);
  }
}
