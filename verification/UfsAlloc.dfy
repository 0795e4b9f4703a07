/**
 * Allocation units of UFS logical units (section 14.1 of JESD220, UFS descriptors), as
 * provisioned by Silicon/Samsung/Exynos9820Pkg/Library/ExynosUfsLib/ufs.c.
 * Descriptor words are kept byte-swapped, as the device stores them.
 */
module UfsAlloc {
  import opened Division

  // ---- 32-bit words ----

  const TWO32 := 0x1_0000_0000

  type U32 = x: int | 0 <= x < TWO32

  function Wrap32(x: int): U32 {
    x % TWO32
  }

  predicate IsByte(a: int) {
    0 <= a < 0x100
  }

  /** The word with the given bytes, lowest first. */
  function Join(a: int, b: int, c: int, d: int): (x: U32)
    requires IsByte(a) && IsByte(b) && IsByte(c) && IsByte(d)
  {
    a + 0x100 * (b + 0x100 * (c + 0x100 * d))
  }

  /** Byte k of a word. */
  function ByteOf(x: nat, k: nat): int {
    if k == 0 then x % 0x100 else ByteOf(x / 0x100, k - 1)
  }

  lemma SplitByte(a: int, r: nat)
    requires IsByte(a)
    ensures (a + 0x100 * r) % 0x100 == a && (a + 0x100 * r) / 0x100 == r
  {
  }

  lemma {:induction false} ByteInRange(x: nat, k: nat)
    ensures IsByte(ByteOf(x, k))
  {
    if k > 0 {
      ByteInRange(x / 0x100, k - 1);
    }
  }

  lemma BytesOfJoin(a: int, b: int, c: int, d: int)
    requires IsByte(a) && IsByte(b) && IsByte(c) && IsByte(d)
    ensures var x := Join(a, b, c, d); ByteOf(x, 0) == a && ByteOf(x, 1) == b && ByteOf(x, 2) == c && ByteOf(x, 3) == d
  {
    SplitByte(a, b + 0x100 * (c + 0x100 * d));
    SplitByte(b, c + 0x100 * d);
    SplitByte(c, d);
    var x := Join(a, b, c, d);
    assert x / 0x100 == b + 0x100 * (c + 0x100 * d);
    assert x / 0x100 / 0x100 == c + 0x100 * d;
    assert x / 0x100 / 0x100 / 0x100 == d;
    assert ByteOf(x, 1) == ByteOf(x / 0x100, 0);
    assert ByteOf(x, 2) == ByteOf(x / 0x100, 1) == ByteOf(x / 0x100 / 0x100, 0);
    assert ByteOf(x, 3) == ByteOf(x / 0x100, 2) == ByteOf(x / 0x100 / 0x100, 1) == ByteOf(x / 0x100 / 0x100 / 0x100, 0);
  }

  /** ___swab32. */
  function Swab(x: U32): U32 {
    ByteInRange(x, 0);
    ByteInRange(x, 1);
    ByteInRange(x, 2);
    ByteInRange(x, 3);
    Join(ByteOf(x, 3), ByteOf(x, 2), ByteOf(x, 1), ByteOf(x, 0))
  }

  lemma SwabOfBytes(a: int, b: int, c: int, d: int)
    requires IsByte(a) && IsByte(b) && IsByte(c) && IsByte(d)
    ensures Swab(Join(a, b, c, d)) == Join(d, c, b, a)
  {
    hide Join, ByteOf;
    BytesOfJoin(a, b, c, d);
  }

  lemma Bytes(x: U32) returns (a: int, b: int, c: int, d: int)
    ensures IsByte(a) && IsByte(b) && IsByte(c) && IsByte(d) && x == Join(a, b, c, d) && a == x % 0x100
  {
    a, b, c, d := x % 0x100, x / 0x100 % 0x100, x / 0x100 / 0x100 % 0x100, x / 0x100 / 0x100 / 0x100;
  }

  lemma SwabInvolution(x: U32)
    ensures Swab(Swab(x)) == x
  {
    hide Swab, Join;
    var a, b, c, d := Bytes(x);
    SwabOfBytes(a, b, c, d);
    SwabOfBytes(d, c, b, a);
  }

  lemma SwabZero(x: U32)
    ensures Swab(0) == 0 && (Swab(x) == 0 <==> x == 0)
  {
    hide Swab;
    SwabOfBytes(0, 0, 0, 0);
    SwabInvolution(x);
  }

  /** Adding a swapped one to a swapped quotient, as the round-up does. */
  function SwappedIncrement(w: U32): U32 {
    Wrap32(w + Swab(1))
  }

  /** The round-up is the swap of q + 1 exactly if the low byte of q is not 255; otherwise it stands for q - 255. */
  lemma SwappedIncrementIs(q: U32)
    requires q + 1 < TWO32
    ensures Swab(SwappedIncrement(Swab(q))) == if q % 0x100 != 0xFF then q + 1 else q - 0xFF
    ensures SwappedIncrement(Swab(q)) == Swab(q + 1) <==> q % 0x100 != 0xFF
  {
    hide Swab;
    var a, b, c, d := Bytes(q);
    SwabOfBytes(a, b, c, d);
    SwabOfBytes(1, 0, 0, 0);
    if a != 0xFF {
      assert SwappedIncrement(Swab(q)) == Join(d, c, b, a + 1);
      SwabOfBytes(a + 1, b, c, d);
      SwabOfBytes(d, c, b, a + 1);
    } else {
      assert SwappedIncrement(Swab(q)) == Join(d, c, b, 0);
      SwabOfBytes(d, c, b, 0);
      SwabInvolution(q + 1);
    }
  }

  // ---- descriptors ----

  /** The device's geometry descriptor; segmentSize and rawCapacity (its low word) are swapped. */
  datatype Geometry = Geometry(segmentSize: U32, rawCapacity: U32, allocationUnitSize: U32, capAdjFactor: U32)

  /** Bytes of an allocation unit over 512; the product is a 32-bit one. */
  function UnitSize(g: Geometry): U32 {
    Wrap32(g.allocationUnitSize * Swab(g.segmentSize))
  }

  /** The program divides by both. */
  predicate GeometryOk(g: Geometry) {
    UnitSize(g) != 0 && g.segmentSize != 0
  }

  function RawUnits(g: Geometry): (r: U32)
    requires GeometryOk(g)
  {
    SwabZero(g.segmentSize);
    Quotient(Swab(g.rawCapacity), Swab(g.segmentSize))
  }

  function Quotient(x: U32, y: U32): (q: U32)
    requires y != 0
    ensures q <= x
  {
    QuotientAtMost(x, y);
    x / y
  }

  function Remainder(x: U32, y: U32): (r: U32)
    requires y != 0
    ensures r < y
  {
    x % y
  }

  /** The settings that are only copied and compared. */
  datatype Settings = Settings(dataReliability: U32, logicalBlockSize: U32, provisioningType: U32, contextCapabilities: U32)

  /**
   * A unit descriptor.  In the device's configuration allocUnits is a swapped number of
   * allocation units, in the wanted configuration a capacity in MB.
   */
  datatype Lu = Lu(enable: U32, bootLunId: U32, writeProtect: U32, memoryType: U32, settings: Settings, allocUnits: U32)

  const LUS := 8

  predicate ConfigOk(c: seq<Lu>) {
    |c| == LUS
  }

  // ---- editing ----

  function BootQuotient(g: Geometry, capacity: U32): U32
    requires GeometryOk(g)
  {
    Quotient(Wrap32(2048 * capacity * g.capAdjFactor), UnitSize(g))
  }

  function NormalQuotient(g: Geometry, capacity: U32): U32
    requires GeometryOk(g)
  {
    Quotient(Wrap32(2048 * capacity), UnitSize(g))
  }

  function NormalRemainder(g: Geometry, capacity: U32): U32
    requires GeometryOk(g)
  {
    Remainder(Wrap32(2048 * capacity), UnitSize(g))
  }

  /** The word written for a LU of a given capacity. */
  function SizedUnits(g: Geometry, want: Lu): U32
    requires GeometryOk(g) && want.allocUnits != 0
  {
    if want.bootLunId != 0 then Swab(BootQuotient(g, want.allocUnits))
    else if NormalRemainder(g, want.allocUnits) != 0 then SwappedIncrement(Swab(NormalQuotient(g, want.allocUnits)))
    else Swab(NormalQuotient(g, want.allocUnits))
  }

  /** The decoded units of the first n LUs. */
  function Total(units: seq<Lu>, n: nat): nat
    requires n <= |units|
  {
    if n == 0 then 0 else Total(units, n - 1) + Swab(units[n - 1].allocUnits)
  }

  /** The LU that is to take what the others leave. */
  predicate Takes(want: Lu) {
    want.allocUnits == 0 && want.enable != 0
  }

  /** ufs_edit_config_desc. */
  function Edit(g: Geometry, want: seq<Lu>, units: seq<Lu>, lun: nat): (r: seq<Lu>)
    requires GeometryOk(g) && ConfigOk(want) && ConfigOk(units) && lun < LUS
    ensures ConfigOk(r)
  {
    var cleared := units[lun := want[lun].(allocUnits := 0)];
    var words :=
      if want[lun].allocUnits != 0 then SizedUnits(g, want[lun])
      else if want[lun].enable != 0 then Swab(Wrap32(RawUnits(g) - Total(cleared, LUS)))
      else 0;
    units[lun := want[lun].(allocUnits := words)]
  }

  /** The loop that edits LUs n - 1 to 0. */
  function EditDown(g: Geometry, want: seq<Lu>, units: seq<Lu>, n: nat): (r: seq<Lu>)
    requires GeometryOk(g) && ConfigOk(want) && ConfigOk(units) && n <= LUS
    ensures ConfigOk(r)
    decreases n
  {
    if n == 0 then units else EditDown(g, want, Edit(g, want, units, n - 1), n - 1)
  }

  function EditPass(g: Geometry, want: seq<Lu>, units: seq<Lu>): (r: seq<Lu>)
    requires GeometryOk(g) && ConfigOk(want) && ConfigOk(units)
    ensures ConfigOk(r)
  {
    EditDown(g, want, units, LUS)
  }

  // ---- what a pass leaves ----

  /** The word of a LU that does not take the rest. */
  function OwnUnits(g: Geometry, want: Lu): U32
    requires GeometryOk(g)
  {
    if want.allocUnits != 0 then SizedUnits(g, want) else 0
  }

  lemma EditOthers(g: Geometry, want: seq<Lu>, units: seq<Lu>, lun: nat, i: nat)
    requires GeometryOk(g) && ConfigOk(want) && ConfigOk(units) && lun < LUS && i < LUS
    ensures i != lun ==> Edit(g, want, units, lun)[i] == units[i]
    ensures i == lun && !Takes(want[i]) ==> Edit(g, want, units, lun)[i] == want[i].(allocUnits := OwnUnits(g, want[i]))
    ensures i == lun ==> Edit(g, want, units, lun)[i] == want[i].(allocUnits := Edit(g, want, units, lun)[i].allocUnits)
  {
    hide SizedUnits, Swab, Total, RawUnits;
  }

  /** LUs not yet reached are as they were; LUs reached that take nothing have their own size. */
  lemma {:induction false} PassUnits(g: Geometry, want: seq<Lu>, units: seq<Lu>, n: nat, i: nat)
    requires GeometryOk(g) && ConfigOk(want) && ConfigOk(units) && n <= LUS && i < LUS
    ensures i >= n ==> EditDown(g, want, units, n)[i] == units[i]
    ensures i < n && !Takes(want[i]) ==> EditDown(g, want, units, n)[i] == want[i].(allocUnits := OwnUnits(g, want[i]))
    decreases n
  {
    hide Edit, OwnUnits;
    if n > 0 {
      EditOthers(g, want, units, n - 1, i);
      PassUnits(g, want, Edit(g, want, units, n - 1), n - 1, i);
    }
  }

  /** The total depends on the words of the first n LUs only. */
  lemma {:induction false} TotalKept(a: seq<Lu>, b: seq<Lu>, n: nat)
    requires n <= |a| && n <= |b| && forall i :: 0 <= i < n ==> a[i].allocUnits == b[i].allocUnits
    ensures Total(a, n) == Total(b, n)
  {
    hide Swab;
    if n > 0 {
      TotalKept(a, b, n - 1);
    }
  }

  /** Two configurations that agree from LU z + 1 on differ in their totals by what lies below and at z. */
  lemma {:induction false} TotalAbove(a: seq<Lu>, b: seq<Lu>, z: nat, n: nat)
    requires z < n <= |a| && n <= |b| && forall i :: z < i < n ==> a[i].allocUnits == b[i].allocUnits
    ensures Total(a, n) - Total(a, z + 1) == Total(b, n) - Total(b, z + 1)
    decreases n
  {
    hide Swab;
    if n > z + 1 {
      TotalAbove(a, b, z, n - 1);
    }
  }

  /** The configuration when the pass down from n reaches LU z. */
  function AtTaker(g: Geometry, want: seq<Lu>, units: seq<Lu>, n: nat, z: nat): (m: seq<Lu>)
    requires GeometryOk(g) && ConfigOk(want) && ConfigOk(units) && z < n <= LUS
    ensures ConfigOk(m)
    decreases n
  {
    if n == z + 1 then units else AtTaker(g, want, Edit(g, want, units, n - 1), n - 1, z)
  }

  lemma {:induction false} AtTakerSplits(g: Geometry, want: seq<Lu>, units: seq<Lu>, n: nat, z: nat)
    requires GeometryOk(g) && ConfigOk(want) && ConfigOk(units) && z < n <= LUS
    ensures var m := AtTaker(g, want, units, n, z);
      EditDown(g, want, units, n) == EditDown(g, want, m, z + 1) && forall i :: 0 <= i <= z ==> m[i] == units[i]
    decreases n
  {
    hide Edit;
    if n > z + 1 {
      var next := Edit(g, want, units, n - 1);
      AtTakerSplits(g, want, next, n - 1, z);
      forall i | 0 <= i <= z
        ensures next[i] == units[i]
      {
        EditOthers(g, want, units, n - 1, i);
      }
    }
  }

  lemma TakerWord(g: Geometry, want: seq<Lu>, m: seq<Lu>, z: nat)
    requires GeometryOk(g) && ConfigOk(want) && ConfigOk(m) && z < LUS && Takes(want[z])
    ensures var cleared := m[z := want[z].(allocUnits := 0)];
      Swab(Edit(g, want, m, z)[z].allocUnits) == Wrap32(RawUnits(g) - Total(cleared, LUS))
  {
    hide Swab, Total, RawUnits;
    SwabInvolution(Wrap32(RawUnits(g) - Total(m[z := want[z].(allocUnits := 0)], LUS)));
  }

  lemma Congruent(raw: U32, s: int, t: int)
    ensures Wrap32(t + Wrap32(raw - s)) == raw <==> Wrap32(t - s) == 0
  {
    var k := (raw - s - Wrap32(raw - s)) / TWO32;
    assert Wrap32(raw - s) == raw - s - k * TWO32;
    assert Wrap32(t + Wrap32(raw - s)) == Wrap32(raw + (t - s));
  }

  /**
   * A pass in which LU z takes the rest: the eight decoded sizes add up to the raw
   * capacity, modulo 2^32, exactly if the pass has not changed the total of the LUs below z.
   */
  lemma PassConserves(g: Geometry, want: seq<Lu>, units: seq<Lu>, z: nat)
    requires GeometryOk(g) && ConfigOk(want) && ConfigOk(units) && z < LUS && Takes(want[z])
    ensures var r := EditPass(g, want, units);
      Wrap32(Total(r, LUS)) == RawUnits(g) <==> Wrap32(Total(r, z) - Total(units, z)) == 0
  {
    hide Swab, Wrap32, RawUnits, Edit;
    var r := EditPass(g, want, units);
    AtTakerSplits(g, want, units, LUS, z);
    var m := AtTaker(g, want, units, LUS, z);
    var e := Edit(g, want, m, z);
    assert r == EditDown(g, want, e, z);
    var cleared := m[z := want[z].(allocUnits := 0)];
    TakerWord(g, want, m, z);
    PassUnits(g, want, e, z, z);
    forall i | z < i < LUS
      ensures r[i].allocUnits == cleared[i].allocUnits
    {
      PassUnits(g, want, e, z, i);
      EditOthers(g, want, m, z, i);
    }
    TotalAbove(r, cleared, z, LUS);
    TotalKept(cleared, units, z);
    SwabZero(0);
    assert Total(r, z + 1) == Total(r, z) + Swab(e[z].allocUnits);
    assert Total(cleared, z + 1) == Total(units, z);
    Congruent(RawUnits(g), Total(cleared, LUS), Total(cleared, LUS) - Total(units, z) + Total(r, z));
  }

  // ---- repeated passes ----

  /** The configuration in which every LU has its own size, and a taker nothing. */
  function Own(g: Geometry, want: seq<Lu>): (r: seq<Lu>)
    requires GeometryOk(g) && ConfigOk(want)
    ensures ConfigOk(r)
  {
    seq(LUS, i requires 0 <= i < LUS => want[i].(allocUnits := OwnUnits(g, want[i])))
  }

  ghost predicate SomeTaker(want: seq<Lu>) {
    exists i :: 0 <= i < |want| && Takes(want[i])
  }

  /** z is the lowest LU that takes the rest. */
  ghost predicate LowestTaker(want: seq<Lu>, z: nat) {
    z < |want| && Takes(want[z]) && forall i :: 0 <= i < z ==> !Takes(want[i])
  }

  lemma {:induction false} FindLowest(want: seq<Lu>, n: nat) returns (z: nat)
    requires n < |want| && Takes(want[n])
    ensures LowestTaker(want, z)
    decreases n
  {
    if i: nat :| i < n && Takes(want[i]) {
      z := FindLowest(want, i);
    } else {
      z := n;
    }
  }

  /** LU i is as wanted, with its own size unless it takes the rest. */
  predicate SettledAt(g: Geometry, want: seq<Lu>, units: seq<Lu>, i: nat)
    requires GeometryOk(g) && ConfigOk(want) && ConfigOk(units) && i < LUS
  {
    && units[i] == want[i].(allocUnits := units[i].allocUnits)
    && (!Takes(want[i]) ==> units[i].allocUnits == OwnUnits(g, want[i]))
  }

  /** Every LU is as wanted, and if one takes the rest, the sizes add up to the raw capacity. */
  ghost predicate Settled(g: Geometry, want: seq<Lu>, units: seq<Lu>)
    requires GeometryOk(g) && ConfigOk(want) && ConfigOk(units)
  {
    && (forall i :: 0 <= i < LUS ==> SettledAt(g, want, units, i))
    && (SomeTaker(want) ==> Wrap32(Total(units, LUS)) == RawUnits(g))
  }

  /** The total without LU z. */
  lemma TotalCleared(units: seq<Lu>, z: nat, w: Lu)
    requires ConfigOk(units) && z < LUS && w.allocUnits == 0
    ensures Total(units[z := w], LUS) == Total(units, LUS) - Swab(units[z].allocUnits)
  {
    hide Swab;
    var cleared := units[z := w];
    TotalAbove(cleared, units, z, LUS);
    TotalKept(cleared, units, z);
    SwabZero(0);
    assert Total(cleared, z + 1) == Total(cleared, z) + Swab(0);
    assert Total(units, z + 1) == Total(units, z) + Swab(units[z].allocUnits);
  }

  lemma Rest(raw: U32, total: int, size: U32)
    requires Wrap32(total) == raw
    ensures Wrap32(raw - (total - size)) == size
  {
    assert total == raw + total / TWO32 * TWO32;
    assert raw - (total - size) == size + (0 - total / TWO32) * TWO32;
  }

  lemma EditSettled(g: Geometry, want: seq<Lu>, units: seq<Lu>, lun: nat)
    requires GeometryOk(g) && ConfigOk(want) && ConfigOk(units) && lun < LUS && Settled(g, want, units)
    ensures Edit(g, want, units, lun) == units
  {
    hide Swab, Total, RawUnits, Wrap32, SizedUnits;
    assert SettledAt(g, want, units, lun);
    if Takes(want[lun]) {
      var cleared := want[lun].(allocUnits := 0);
      TotalCleared(units, lun, cleared);
      Rest(RawUnits(g), Total(units, LUS), Swab(units[lun].allocUnits));
      SwabInvolution(units[lun].allocUnits);
    }
  }

  lemma {:induction false} PassSettled(g: Geometry, want: seq<Lu>, units: seq<Lu>, n: nat)
    requires GeometryOk(g) && ConfigOk(want) && ConfigOk(units) && n <= LUS && Settled(g, want, units)
    ensures EditDown(g, want, units, n) == units
    decreases n
  {
    hide Edit, Settled;
    if n > 0 {
      EditSettled(g, want, units, n - 1);
      PassSettled(g, want, units, n - 1);
    }
  }

  lemma {:induction false} PassShape(g: Geometry, want: seq<Lu>, units: seq<Lu>, n: nat, i: nat)
    requires GeometryOk(g) && ConfigOk(want) && ConfigOk(units) && i < n <= LUS
    ensures SettledAt(g, want, EditDown(g, want, units, n), i)
    decreases n
  {
    hide Edit, OwnUnits;
    var next := Edit(g, want, units, n - 1);
    EditOthers(g, want, units, n - 1, i);
    PassUnits(g, want, units, n, i);
    if i < n - 1 {
      PassShape(g, want, next, n - 1, i);
    } else {
      PassUnits(g, want, next, n - 1, i);
    }
  }

  /** A pass leaves every LU as wanted. */
  lemma PassShapes(g: Geometry, want: seq<Lu>, units: seq<Lu>)
    requires GeometryOk(g) && ConfigOk(want) && ConfigOk(units)
    ensures forall i :: 0 <= i < LUS ==> SettledAt(g, want, EditPass(g, want, units), i)
  {
    hide SettledAt, EditDown;
    forall i: nat | i < LUS
      ensures SettledAt(g, want, EditPass(g, want, units), i)
    {
      PassShape(g, want, units, LUS, i);
    }
  }

  /** A pass leaves a settled configuration exactly if it has not changed the total below its lowest taker. */
  lemma PassSettles(g: Geometry, want: seq<Lu>, units: seq<Lu>, z: nat)
    requires GeometryOk(g) && ConfigOk(want) && ConfigOk(units) && z < LUS && LowestTaker(want, z)
    ensures Settled(g, want, EditPass(g, want, units)) <==> Wrap32(Total(Own(g, want), z) - Total(units, z)) == 0
  {
    hide SettledAt, EditPass, Wrap32, RawUnits, OwnUnits;
    PassShapes(g, want, units);
    PassConserves(g, want, units, z);
    OwnBelow(g, want, units, z);
  }

  lemma OwnBelow(g: Geometry, want: seq<Lu>, units: seq<Lu>, z: nat)
    requires GeometryOk(g) && ConfigOk(want) && ConfigOk(units) && z < LUS && forall i :: 0 <= i < z ==> !Takes(want[i])
    ensures Total(EditPass(g, want, units), z) == Total(Own(g, want), z)
  {
    hide OwnUnits, EditDown, Takes;
    var r := EditPass(g, want, units);
    forall i | 0 <= i < z
      ensures r[i].allocUnits == Own(g, want)[i].allocUnits
    {
      PassUnits(g, want, units, LUS, i);
    }
    TotalKept(r, Own(g, want), z);
  }

  /** A pass changes nothing exactly if the configuration is settled. */
  lemma PassFixes(g: Geometry, want: seq<Lu>, units: seq<Lu>)
    requires GeometryOk(g) && ConfigOk(want) && ConfigOk(units)
    ensures EditPass(g, want, units) == units <==> Settled(g, want, units)
  {
    hide SettledAt, Wrap32, RawUnits, EditDown;
    if Settled(g, want, units) {
      PassSettled(g, want, units, LUS);
    } else if EditPass(g, want, units) == units {
      PassShapes(g, want, units);
      var i: nat :| i < LUS && Takes(want[i]);
      PassConserves(g, want, units, i);
      WrapZero();
    }
  }

  lemma WrapZero()
    ensures Wrap32(0) == 0
  {
  }

  /** The words before and after n passes. */
  function Passes(g: Geometry, want: seq<Lu>, units: seq<Lu>, n: nat): (r: seq<Lu>)
    requires GeometryOk(g) && ConfigOk(want) && ConfigOk(units)
    ensures ConfigOk(r)
  {
    if n == 0 then units else EditPass(g, want, Passes(g, want, units, n - 1))
  }

  /**
   * A second pass changes nothing exactly if the LUs below the lowest taker had their own
   * total to begin with, or if none takes the rest.
   */
  lemma PassTwice(g: Geometry, want: seq<Lu>, units: seq<Lu>)
    requires GeometryOk(g) && ConfigOk(want) && ConfigOk(units)
    ensures var r := EditPass(g, want, units);
      EditPass(g, want, r) == r <==>
      forall z :: 0 <= z < LUS && LowestTaker(want, z) ==> Wrap32(Total(Own(g, want), z) - Total(units, z)) == 0
  {
    hide EditPass, SettledAt, Wrap32, RawUnits, Own, Total;
    var r := EditPass(g, want, units);
    PassFixes(g, want, r);
    PassShapes(g, want, units);
    if i: nat :| i < LUS && Takes(want[i]) {
      var z := FindLowest(want, i);
      PassSettles(g, want, units, z);
      assert forall y :: 0 <= y < LUS && LowestTaker(want, y) ==> y == z;
    }
  }

  /** Whatever is wanted and whatever was there, two passes settle it: a third changes nothing. */
  lemma PassThrice(g: Geometry, want: seq<Lu>, units: seq<Lu>)
    requires GeometryOk(g) && ConfigOk(want) && ConfigOk(units)
    ensures Settled(g, want, Passes(g, want, units, 2))
    ensures Passes(g, want, units, 3) == Passes(g, want, units, 2)
  {
    hide EditPass, SettledAt, Wrap32, RawUnits, Own, Total;
    var r := EditPass(g, want, units);
    assert Passes(g, want, units, 1) == EditPass(g, want, Passes(g, want, units, 0)) == r;
    assert Passes(g, want, units, 2) == EditPass(g, want, r);
    PassShapes(g, want, r);
    if i: nat :| i < LUS && Takes(want[i]) {
      var z := FindLowest(want, i);
      PassSettles(g, want, r, z);
      OwnBelow(g, want, units, z);
      WrapZero();
    }
    PassFixes(g, want, Passes(g, want, units, 2));
    assert Passes(g, want, units, 3) == EditPass(g, want, Passes(g, want, units, 2));
  }

  // ---- LU 0 takes the rest ----

  /** At most LU 0 takes the rest. */
  predicate LowTaker(want: seq<Lu>)
    requires ConfigOk(want)
  {
    forall i :: 0 < i < LUS ==> !Takes(want[i])
  }

  /** What a pass leaves, whatever it started from. */
  function Provisioned(g: Geometry, want: seq<Lu>): (r: seq<Lu>)
    requires GeometryOk(g) && ConfigOk(want)
    ensures ConfigOk(r)
  {
    var own := Own(g, want);
    if Takes(want[0]) then own[0 := want[0].(allocUnits := Swab(Wrap32(RawUnits(g) - Total(own, LUS))))] else own
  }

  lemma PassIs(g: Geometry, want: seq<Lu>, units: seq<Lu>)
    requires GeometryOk(g) && ConfigOk(want) && ConfigOk(units) && LowTaker(want)
    ensures EditPass(g, want, units) == Provisioned(g, want)
  {
    hide Swab, Wrap32, RawUnits, SizedUnits, Takes;
    var r := EditPass(g, want, units);
    forall i | 0 <= i < LUS && (i > 0 || !Takes(want[i]))
      ensures r[i] == Provisioned(g, want)[i]
    {
      PassUnits(g, want, units, LUS, i);
    }
    if Takes(want[0]) {
      AtTakerSplits(g, want, units, LUS, 0);
      var m := AtTaker(g, want, units, LUS, 0);
      var cleared := m[0 := want[0].(allocUnits := 0)];
      assert r == Edit(g, want, m, 0);
      forall i | 0 < i < LUS
        ensures cleared[i].allocUnits == Own(g, want)[i].allocUnits
      {
        EditOthers(g, want, m, 0, i);
      }
      OwnOfTaker(g, want[0]);
      TotalKept(cleared, Own(g, want), LUS);
      TakerIs(g, want, m, 0);
    }
    assert r == Provisioned(g, want);
  }

  lemma OwnOfTaker(g: Geometry, want: Lu)
    requires GeometryOk(g) && Takes(want)
    ensures OwnUnits(g, want) == 0
  {
  }

  lemma TakerIs(g: Geometry, want: seq<Lu>, m: seq<Lu>, z: nat)
    requires GeometryOk(g) && ConfigOk(want) && ConfigOk(m) && z < LUS && Takes(want[z])
    ensures var cleared := m[z := want[z].(allocUnits := 0)];
      Edit(g, want, m, z)[z] == want[z].(allocUnits := Swab(Wrap32(RawUnits(g) - Total(cleared, LUS))))
  {
    hide Swab, Wrap32, Total, RawUnits;
  }

  /** All words zero but the lowest. */
  function LoneUnits(want: seq<Lu>, w: U32): (r: seq<Lu>)
    requires ConfigOk(want)
    ensures ConfigOk(r)
  {
    seq(LUS, i requires 0 <= i < LUS => want[i].(allocUnits := if i == 0 then w else 0))
  }

  lemma {:induction false} AtTakerSame(g: Geometry, want: seq<Lu>, a: seq<Lu>, b: seq<Lu>, n: nat, z: nat, i: nat)
    requires GeometryOk(g) && ConfigOk(want) && ConfigOk(a) && ConfigOk(b) && z < n <= LUS && i < LUS
    requires a[i] == b[i] || z < i < n
    requires z < i ==> !Takes(want[i])
    ensures AtTaker(g, want, a, n, z)[i] == AtTaker(g, want, b, n, z)[i]
    decreases n
  {
    hide Edit;
    if n > z + 1 {
      EditOthers(g, want, a, n - 1, i);
      EditOthers(g, want, b, n - 1, i);
      AtTakerSame(g, want, Edit(g, want, a, n - 1), Edit(g, want, b, n - 1), n - 1, z, i);
    }
  }

  /** The word of the highest taker z > 0 depends on what LU 0 had before. */
  lemma TakerRemembers(g: Geometry, want: seq<Lu>, z: nat)
    requires GeometryOk(g) && ConfigOk(want) && 0 < z < LUS && Takes(want[z]) && forall i :: z < i < LUS ==> !Takes(want[i])
    ensures EditPass(g, want, LoneUnits(want, 0))[z] != EditPass(g, want, LoneUnits(want, Swab(1)))[z]
  {
    hide Edit, Swab, RawUnits, Wrap32;
    var a, b := LoneUnits(want, 0), LoneUnits(want, Swab(1));
    AtTakerSplits(g, want, a, LUS, z);
    AtTakerSplits(g, want, b, LUS, z);
    var m, n := AtTaker(g, want, a, LUS, z), AtTaker(g, want, b, LUS, z);
    PassUnits(g, want, Edit(g, want, m, z), z, z);
    PassUnits(g, want, Edit(g, want, n, z), z, z);
    TakerWord(g, want, m, z);
    TakerWord(g, want, n, z);
    var c, d := m[z := want[z].(allocUnits := 0)], n[z := want[z].(allocUnits := 0)];
    forall i | 0 < i < LUS
      ensures c[i].allocUnits == d[i].allocUnits
    {
      AtTakerSame(g, want, a, b, LUS, z, i);
    }
    FirstApart(c, d);
    SwabZero(0);
    SwabInvolution(1);
    OneApart(RawUnits(g), Total(c, LUS));
  }

  lemma OneApart(raw: U32, t: int)
    ensures Wrap32(raw - t) != Wrap32(raw - (t + 1))
  {
  }

  lemma {:induction false} HighestTaker(want: seq<Lu>, n: nat) returns (z: nat)
    requires ConfigOk(want) && n < LUS && Takes(want[n])
    ensures n <= z < LUS && Takes(want[z]) && forall i :: z < i < LUS ==> !Takes(want[i])
    decreases LUS - n
  {
    if i: nat :| n < i < LUS && Takes(want[i]) {
      z := HighestTaker(want, i);
    } else {
      z := n;
    }
  }

  /** A pass forgets what it started from exactly if no LU above 0 takes the rest. */
  lemma PassForgets(g: Geometry, want: seq<Lu>)
    requires GeometryOk(g) && ConfigOk(want)
    ensures (forall units :: ConfigOk(units) ==> EditPass(g, want, units) == Provisioned(g, want)) <==> LowTaker(want)
  {
    hide EditPass, Provisioned, Takes, LoneUnits;
    if LowTaker(want) {
      forall units | ConfigOk(units)
        ensures EditPass(g, want, units) == Provisioned(g, want)
      {
        PassIs(g, want, units);
      }
    } else {
      var i: nat :| 0 < i < LUS && Takes(want[i]);
      var z := HighestTaker(want, i);
      TakerRemembers(g, want, z);
      assert ConfigOk(LoneUnits(want, 0)) && ConfigOk(LoneUnits(want, Swab(1)));
    }
  }

  lemma FirstApart(a: seq<Lu>, b: seq<Lu>)
    requires ConfigOk(a) && ConfigOk(b) && forall i :: 0 < i < LUS ==> a[i].allocUnits == b[i].allocUnits
    ensures Total(a, LUS) - Swab(a[0].allocUnits) == Total(b, LUS) - Swab(b[0].allocUnits)
  {
    hide Swab;
    TotalAbove(a, b, 0, LUS);
    assert Total(a, 1) == Total(a, 0) + Swab(a[0].allocUnits);
    assert Total(b, 1) == Total(b, 0) + Swab(b[0].allocUnits);
  }

  /**
   * Allocation is conserved: when LU 0 takes the rest, the eight decoded sizes add up to
   * the raw capacity modulo 2^32, and exactly if the others fit.
   */
  lemma ProvisionedTotal(g: Geometry, want: seq<Lu>)
    requires GeometryOk(g) && ConfigOk(want) && Takes(want[0])
    ensures var r := Provisioned(g, want);
      var others := Total(Own(g, want), LUS);
      && Wrap32(Total(r, LUS)) == RawUnits(g)
      && (Total(r, LUS) == RawUnits(g) <==> others <= RawUnits(g))
      && (others <= RawUnits(g) ==> Swab(r[0].allocUnits) == RawUnits(g) - others)
  {
    hide Swab, RawUnits, SizedUnits, Total;
    var r, own := Provisioned(g, want), Own(g, want);
    FirstApart(r, own);
    OwnOfTaker(g, want[0]);
    SwabZero(0);
    SwabInvolution(Wrap32(RawUnits(g) - Total(own, LUS)));
  }
}
