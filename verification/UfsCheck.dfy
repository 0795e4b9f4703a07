/**
 * How ufs.c checks a provisioned configuration and repeats the pass (ufs_check_config_desc,
 * ufs_set_configuration_descriptor): what the check accepts of any device, what it makes of
 * a pass, and where the retries end.
 */
module UfsCheck {
  import opened Division
  import opened UfsAlloc

  // ---- checking ----

  /** The size test of ufs_check_config_desc; sum is the total of this LU and those above. */
  predicate SizeAccepted(g: Geometry, want: Lu, units: U32, sum: U32)
    requires GeometryOk(g)
  {
    if want.allocUnits == 0 then Swab(Wrap32(RawUnits(g) - sum)) != units
    else if want.memoryType > 0 then Swab(BootQuotient(g, want.allocUnits)) == units
    else if NormalRemainder(g, want.allocUnits) != 0 then Wrap32(NormalQuotient(g, want.allocUnits) + 1) == Swab(units)
    else NormalQuotient(g, want.allocUnits) == Swab(units)
  }

  predicate LuAccepted(g: Geometry, want: Lu, got: Lu, sum: U32)
    requires GeometryOk(g)
  {
    && got == want.(allocUnits := got.allocUnits)
    && SizeAccepted(g, want, got.allocUnits, sum)
  }

  /** The loop that checks LUs n - 1 to 0. */
  predicate CheckDown(g: Geometry, want: seq<Lu>, units: seq<Lu>, n: nat, sum: U32)
    requires GeometryOk(g) && ConfigOk(want) && ConfigOk(units) && n <= LUS
  {
    if n == 0 then true
    else
      var s := Wrap32(sum + Swab(units[n - 1].allocUnits));
      LuAccepted(g, want[n - 1], units[n - 1], s) && CheckDown(g, want, units, n - 1, s)
  }

  /** ufs_check_config_desc, when the descriptors can be read. */
  predicate Check(g: Geometry, want: seq<Lu>, units: seq<Lu>, bootLunEn: U32)
    requires GeometryOk(g) && ConfigOk(want) && ConfigOk(units)
  {
    CheckDown(g, want, units, LUS, 0) && bootLunEn != 0
  }

  // ---- what is accepted ----

  /** Decoded size of a unit descriptor. */
  function Size(lu: Lu): U32 {
    Swab(lu.allocUnits)
  }

  /** The one size accepted of a LU of given capacity; boot LUs are told by their memory type. */
  function CheckedSize(g: Geometry, want: Lu): U32
    requires GeometryOk(g)
  {
    if want.memoryType > 0 then BootQuotient(g, want.allocUnits)
    else Wrap32(NormalQuotient(g, want.allocUnits) + if NormalRemainder(g, want.allocUnits) != 0 then 1 else 0)
  }

  /** The size a pass leaves in it; boot LUs are told by their boot id, and the round-up loses a carry. */
  function WrittenSize(g: Geometry, want: Lu): int
    requires GeometryOk(g)
  {
    var q := NormalQuotient(g, want.allocUnits);
    if want.bootLunId != 0 then BootQuotient(g, want.allocUnits)
    else if NormalRemainder(g, want.allocUnits) == 0 then q
    else if q % 0x100 != 0xFF then q + 1
    else q - 0xFF
  }

  /** What LUs k to 7 leave of the raw capacity. */
  function LeftFrom(g: Geometry, units: seq<Lu>, k: nat): U32
    requires GeometryOk(g) && ConfigOk(units) && k <= LUS
  {
    Wrap32(RawUnits(g) - (Total(units, LUS) - Total(units, k)))
  }

  /**
   * LU k is accepted: everything but the size is as wanted; a capacity fixes the size, and
   * without one the size is anything but what the LUs from k upwards leave.
   */
  predicate AcceptedAt(g: Geometry, want: seq<Lu>, units: seq<Lu>, k: nat)
    requires GeometryOk(g) && ConfigOk(want) && ConfigOk(units) && k < LUS
  {
    && units[k] == want[k].(allocUnits := units[k].allocUnits)
    && (if want[k].allocUnits != 0 then Size(units[k]) == CheckedSize(g, want[k])
        else Size(units[k]) != LeftFrom(g, units, k))
  }

  lemma SmallWrap(x: int)
    requires 0 <= x < TWO32
    ensures Wrap32(x) == x
  {
  }

  lemma WrapSum(a: int, b: int)
    ensures Wrap32(Wrap32(a) + b) == Wrap32(a + b)
  {
  }

  lemma WrapTwice(raw: int, t: int)
    ensures Wrap32(raw - Wrap32(t)) == Wrap32(raw - t)
  {
  }

  lemma SwabEquals(x: U32, y: U32)
    ensures Swab(x) == y <==> x == Swab(y)
  {
    hide Swab;
    SwabInvolution(x);
    SwabInvolution(y);
  }

  /** The size test, decoded. */
  lemma SizeAcceptedIs(g: Geometry, want: Lu, units: U32, sum: U32)
    requires GeometryOk(g)
    ensures SizeAccepted(g, want, units, sum) <==>
      if want.allocUnits != 0 then Swab(units) == CheckedSize(g, want) else Swab(units) != Wrap32(RawUnits(g) - sum)
  {
    hide Swab, Wrap32, RawUnits, BootQuotient, NormalQuotient, NormalRemainder;
    SwabEquals(Wrap32(RawUnits(g) - sum), units);
    SwabEquals(BootQuotient(g, want.allocUnits), units);
    SmallWrap(NormalQuotient(g, want.allocUnits));
  }

  lemma LuAcceptedIs(g: Geometry, want: seq<Lu>, units: seq<Lu>, k: nat)
    requires GeometryOk(g) && ConfigOk(want) && ConfigOk(units) && k < LUS
    ensures LuAccepted(g, want[k], units[k], Wrap32(Total(units, LUS) - Total(units, k))) <==> AcceptedAt(g, want, units, k)
  {
    hide Swab, Wrap32, RawUnits, Total, CheckedSize, SizeAccepted;
    var sum := Total(units, LUS) - Total(units, k);
    SizeAcceptedIs(g, want[k], units[k].allocUnits, Wrap32(sum));
    WrapTwice(RawUnits(g), sum);
  }

  /** The running sum of the loop when it has reached LU n - 1. */
  lemma SumReaches(units: seq<Lu>, n: nat, sum: U32)
    requires ConfigOk(units) && 0 < n <= LUS && sum == Wrap32(Total(units, LUS) - Total(units, n))
    ensures Wrap32(sum + Swab(units[n - 1].allocUnits)) == Wrap32(Total(units, LUS) - Total(units, n - 1))
  {
    hide Swab, Wrap32;
    WrapSum(Total(units, LUS) - Total(units, n), Swab(units[n - 1].allocUnits));
  }

  /** The loop's test, LU by LU. */
  lemma {:induction false} CheckDownIs(g: Geometry, want: seq<Lu>, units: seq<Lu>, n: nat, sum: U32)
    requires GeometryOk(g) && ConfigOk(want) && ConfigOk(units) && n <= LUS
    requires sum == Wrap32(Total(units, LUS) - Total(units, n))
    ensures CheckDown(g, want, units, n, sum) <==> forall k :: 0 <= k < n ==> AcceptedAt(g, want, units, k)
  {
    hide Swab, Wrap32, Total, LuAccepted, AcceptedAt;
    if n > 0 {
      SumReaches(units, n, sum);
      LuAcceptedIs(g, want, units, n - 1);
      CheckDownIs(g, want, units, n - 1, Wrap32(sum + Swab(units[n - 1].allocUnits)));
    }
  }

  /** Exactly what the check accepts, of any device. */
  lemma CheckIs(g: Geometry, want: seq<Lu>, units: seq<Lu>, bootLunEn: U32)
    requires GeometryOk(g) && ConfigOk(want) && ConfigOk(units)
    ensures Check(g, want, units, bootLunEn) <==>
      bootLunEn != 0 && forall k :: 0 <= k < LUS ==> AcceptedAt(g, want, units, k)
  {
    hide CheckDown, AcceptedAt, Total, Wrap32;
    assert Total(units, LUS) - Total(units, LUS) == 0;
    WrapZero();
    CheckDownIs(g, want, units, LUS, 0);
  }

  // ---- what acceptance is worth ----

  /** A LU's word bears on the LUs from it downwards only. */
  lemma AcceptedKept(g: Geometry, want: seq<Lu>, a: seq<Lu>, b: seq<Lu>, k: nat)
    requires GeometryOk(g) && ConfigOk(want) && ConfigOk(a) && ConfigOk(b) && k < LUS
    requires forall i :: k <= i < LUS ==> a[i] == b[i]
    ensures AcceptedAt(g, want, a, k) <==> AcceptedAt(g, want, b, k)
  {
    hide Swab, Wrap32, RawUnits, CheckedSize;
    if k > 0 {
      TotalAbove(a, b, k - 1, LUS);
    } else {
      TotalKept(a, b, LUS);
    }
  }

  /** The rest computed at LU k, size included, and without it. */
  lemma LeftWithout(g: Geometry, units: seq<Lu>, k: nat)
    requires GeometryOk(g) && ConfigOk(units) && k < LUS
    ensures LeftFrom(g, units, k) == Wrap32(LeftFrom(g, units, k + 1) - Size(units[k]))
  {
    hide Swab, RawUnits, Wrap32;
    WrapSum(RawUnits(g) - (Total(units, LUS) - Total(units, k + 1)), 0 - Swab(units[k].allocUnits));
  }

  /** A size other than the avoided one and other than what then is left. */
  function OtherSize(left: U32, avoid: U32): U32 {
    if avoid != 0 && left != 0 then 0
    else if avoid != 1 && left != 2 then 1
    else 2
  }

  lemma OtherSizeIs(left: U32, avoid: U32)
    ensures OtherSize(left, avoid) != avoid && OtherSize(left, avoid) != Wrap32(left - OtherSize(left, avoid))
  {
  }

  /** LU k is accepted, and differs from a configuration's if its capacity is not given. */
  predicate OtherAt(g: Geometry, want: seq<Lu>, c: seq<Lu>, units: seq<Lu>, k: nat)
    requires GeometryOk(g) && ConfigOk(want) && ConfigOk(c) && ConfigOk(units) && k < LUS
  {
    && AcceptedAt(g, want, units, k)
    && (want[k].allocUnits == 0 ==> units[k] != c[k])
  }

  /** The descriptor chosen for LU k when those above it stand. */
  function OtherLu(g: Geometry, want: Lu, left: U32, avoid: Lu): Lu
    requires GeometryOk(g)
  {
    want.(allocUnits := Swab(if want.allocUnits != 0 then CheckedSize(g, want) else OtherSize(left, Size(avoid))))
  }

  lemma OtherLuIs(g: Geometry, want: seq<Lu>, c: seq<Lu>, units: seq<Lu>, k: nat)
    requires GeometryOk(g) && ConfigOk(want) && ConfigOk(c) && ConfigOk(units) && k < LUS
    requires units[k] == OtherLu(g, want[k], LeftFrom(g, units, k + 1), c[k])
    ensures OtherAt(g, want, c, units, k)
  {
    hide Swab, Wrap32, RawUnits, CheckedSize, Total, OtherSize;
    SwabInvolution(CheckedSize(g, want[k]));
    SwabInvolution(OtherSize(LeftFrom(g, units, k + 1), Size(c[k])));
    OtherSizeIs(LeftFrom(g, units, k + 1), Size(c[k]));
    LeftWithout(g, units, k);
  }

  lemma LeftKept(g: Geometry, a: seq<Lu>, b: seq<Lu>, k: nat)
    requires GeometryOk(g) && ConfigOk(a) && ConfigOk(b) && k < LUS && forall i :: k < i < LUS ==> a[i] == b[i]
    ensures LeftFrom(g, a, k + 1) == LeftFrom(g, b, k + 1)
  {
    hide Swab, Wrap32, RawUnits;
    TotalAbove(a, b, k, LUS);
  }

  /** Some accepted configuration that differs from c in every LU without capacity. */
  lemma {:induction false} OtherAccepted(g: Geometry, want: seq<Lu>, c: seq<Lu>, units: seq<Lu>, n: nat) returns (r: seq<Lu>)
    requires GeometryOk(g) && ConfigOk(want) && ConfigOk(c) && ConfigOk(units) && n <= LUS
    requires forall k :: n <= k < LUS ==> OtherAt(g, want, c, units, k)
    ensures ConfigOk(r) && forall k :: 0 <= k < LUS ==> OtherAt(g, want, c, r, k)
    decreases n
  {
    hide AcceptedAt, OtherLu, LeftFrom;
    if n == 0 {
      r := units;
    } else {
      var next := units[n - 1 := OtherLu(g, want[n - 1], LeftFrom(g, units, n), c[n - 1])];
      LeftKept(g, units, next, n - 1);
      OtherLuIs(g, want, c, next, n - 1);
      forall k | n <= k < LUS
        ensures OtherAt(g, want, c, next, k)
      {
        assert OtherAt(g, want, c, units, k);
        AcceptedKept(g, want, units, next, k);
      }
      r := OtherAccepted(g, want, c, next, n - 1);
    }
  }

  /** Every LU has a capacity, and in c the size the check asks for. */
  predicate Pinned(g: Geometry, want: seq<Lu>, c: seq<Lu>)
    requires GeometryOk(g) && ConfigOk(want) && ConfigOk(c)
  {
    forall k :: 0 <= k < LUS ==>
      want[k].allocUnits != 0 && c[k] == want[k].(allocUnits := Swab(CheckedSize(g, want[k])))
  }

  /** Acceptance means being c exactly if every LU has a capacity and c the sizes asked for. */
  lemma CheckPins(g: Geometry, want: seq<Lu>, c: seq<Lu>)
    requires GeometryOk(g) && ConfigOk(want) && ConfigOk(c)
    ensures (forall units, b :: ConfigOk(units) && Check(g, want, units, b) ==> units == c) <==> Pinned(g, want, c)
  {
    hide Check, CheckedSize, LeftFrom, Swab;
    if Pinned(g, want, c) {
      forall units, b | ConfigOk(units) && Check(g, want, units, b)
        ensures units == c
      {
        PinnedIs(g, want, c, units, b);
      }
    } else {
      var units := OtherAccepted(g, want, c, want, LUS);
      assert Check(g, want, units, 1) by {
        CheckIs(g, want, units, 1);
        forall k | 0 <= k < LUS
          ensures AcceptedAt(g, want, units, k)
        {
          assert OtherAt(g, want, c, units, k);
        }
      }
      var k :| 0 <= k < LUS && !(want[k].allocUnits != 0 && c[k] == want[k].(allocUnits := Swab(CheckedSize(g, want[k]))));
      assert OtherAt(g, want, c, units, k);
      SwabInvolution(units[k].allocUnits);
      assert Swab(Size(units[k])) == units[k].allocUnits;
      assert units[k] != c[k];
    }
  }

  lemma PinnedIs(g: Geometry, want: seq<Lu>, c: seq<Lu>, units: seq<Lu>, b: U32)
    requires GeometryOk(g) && ConfigOk(want) && ConfigOk(c) && ConfigOk(units) && Pinned(g, want, c) && Check(g, want, units, b)
    ensures units == c
  {
    hide Check, CheckedSize, LeftFrom, Swab;
    CheckIs(g, want, units, b);
    forall k | 0 <= k < LUS
      ensures units[k] == c[k]
    {
      assert AcceptedAt(g, want, units, k);
      SwabInvolution(units[k].allocUnits);
    }
  }

  // ---- what a pass makes of it ----

  /** What is written for a LU of a given capacity passes the size test. */
  predicate SizeSurvives(g: Geometry, want: Lu)
    requires GeometryOk(g)
  {
    WrittenSize(g, want) == CheckedSize(g, want)
  }

  lemma QuotientBelow(x: U32, y: U32)
    requires y != 0 && Remainder(x, y) != 0
    ensures Quotient(x, y) + 1 < TWO32
  {
    SplitQuotient(x, y);
    ProductNotNegative(x / y, y - 1);
    assert x / y * y == x / y * (y - 1) + x / y;
  }

  lemma RoundUpFits(g: Geometry, capacity: U32)
    requires GeometryOk(g) && NormalRemainder(g, capacity) != 0
    ensures NormalQuotient(g, capacity) + 1 < TWO32
  {
    hide Quotient, Remainder;
    QuotientBelow(Wrap32(2048 * capacity), UnitSize(g));
  }

  lemma SizedUnitsIs(g: Geometry, want: Lu)
    requires GeometryOk(g) && want.allocUnits != 0
    ensures Swab(SizedUnits(g, want)) == WrittenSize(g, want)
  {
    hide Swab, SwappedIncrement, BootQuotient, NormalQuotient, NormalRemainder;
    var q := NormalQuotient(g, want.allocUnits);
    SwabInvolution(q);
    SwabInvolution(BootQuotient(g, want.allocUnits));
    if NormalRemainder(g, want.allocUnits) != 0 {
      RoundUpFits(g, want.allocUnits);
      SwappedIncrementIs(q);
    }
  }

  /** The written size is the one asked for, or not, as the capacity alone says. */
  lemma SizedPasses(g: Geometry, want: Lu, sum: U32)
    requires GeometryOk(g) && want.allocUnits != 0
    ensures SizeAccepted(g, want, SizedUnits(g, want), sum) <==> SizeSurvives(g, want)
  {
    hide SizeAccepted, SizedUnits, WrittenSize, CheckedSize, Swab;
    SizedUnitsIs(g, want);
    SizeAcceptedIs(g, want, SizedUnits(g, want), sum);
  }

  /**
   * When boot id and memory type agree, a size survives exactly if no round-up loses a
   * carry; when they differ, exactly if the boot quotient and the rounded one happen to agree.
   */
  lemma SurvivalIs(g: Geometry, want: Lu)
    requires GeometryOk(g) && want.allocUnits != 0
    ensures var q, r, b := NormalQuotient(g, want.allocUnits), NormalRemainder(g, want.allocUnits), BootQuotient(g, want.allocUnits);
      var up := q + if r != 0 then 1 else 0;
      SizeSurvives(g, want) <==>
      if want.bootLunId != 0 then want.memoryType > 0 || b == up
      else if want.memoryType == 0 then r == 0 || q % 0x100 != 0xFF
      else b == if r != 0 && q % 0x100 == 0xFF then q - 0xFF else up
  {
    hide BootQuotient, NormalQuotient, NormalRemainder, Wrap32;
    var q := NormalQuotient(g, want.allocUnits);
    SmallWrap(q);
    if NormalRemainder(g, want.allocUnits) != 0 {
      RoundUpFits(g, want.allocUnits);
      SmallWrap(q + 1);
    }
  }

  /**
   * The condition on the wanted configuration alone: sized LUs survive the round-up, LU 0
   * is left something, and no disabled LU without capacity sits where the LUs from it
   * upwards use up the raw capacity.
   */
  predicate Acceptable(g: Geometry, want: seq<Lu>)
    requires GeometryOk(g) && ConfigOk(want)
  {
    forall k :: 0 <= k < LUS ==> LuAcceptable(g, want, k)
  }

  predicate LuAcceptable(g: Geometry, want: seq<Lu>, k: nat)
    requires GeometryOk(g) && ConfigOk(want) && k < LUS
  {
    if want[k].allocUnits != 0 then SizeSurvives(g, want[k])
    else if Takes(want[k]) then Rightful(g, want) != 0
    else LeftFrom(g, Provisioned(g, want), k) != 0
  }

  /** The size LU 0 is to take. */
  function Rightful(g: Geometry, want: seq<Lu>): U32
    requires GeometryOk(g) && ConfigOk(want)
  {
    Wrap32(RawUnits(g) - Total(Own(g, want), LUS))
  }

  lemma ProvisionedAt(g: Geometry, want: seq<Lu>, k: nat)
    requires GeometryOk(g) && ConfigOk(want) && k < LUS && LowTaker(want)
    ensures Provisioned(g, want)[k] ==
      want[k].(allocUnits := if Takes(want[k]) then Swab(Rightful(g, want)) else OwnUnits(g, want[k]))
  {
    hide Swab, Total, RawUnits, SizedUnits;
  }

  /** The configuration a pass leaves, with some other size for LU 0. */
  function Resized(g: Geometry, want: seq<Lu>, x: U32): (r: seq<Lu>)
    requires GeometryOk(g) && ConfigOk(want)
    ensures ConfigOk(r)
  {
    Provisioned(g, want)[0 := want[0].(allocUnits := Swab(x))]
  }

  /** What is left of the raw capacity when LU 0 has size x. */
  lemma ResizedLeft(g: Geometry, want: seq<Lu>, x: U32)
    requires GeometryOk(g) && ConfigOk(want) && Takes(want[0])
    ensures LeftFrom(g, Resized(g, want, x), 0) == Wrap32(Rightful(g, want) - x)
  {
    hide Swab, RawUnits, SizedUnits, Wrap32;
    var r, own := Resized(g, want, x), Own(g, want);
    OwnOfTaker(g, want[0]);
    FirstApart(r, own);
    SwabZero(0);
    SwabInvolution(x);
    assert Total(r, 0) == 0;
    WrapSum(RawUnits(g) - Total(own, LUS), 0 - x);
  }

  lemma Twice(v: U32, x: U32)
    ensures x == Wrap32(v - x) <==> Wrap32(2 * x) == v
  {
  }

  /** The check of LU 0, whatever its size. */
  lemma TakerAccepted(g: Geometry, want: seq<Lu>, x: U32)
    requires GeometryOk(g) && ConfigOk(want) && Takes(want[0])
    ensures AcceptedAt(g, want, Resized(g, want, x), 0) <==> Wrap32(2 * x) != Rightful(g, want)
  {
    hide Swab, Rightful, LeftFrom, Wrap32, Provisioned;
    ResizedLeft(g, want, x);
    SwabInvolution(x);
    Twice(Rightful(g, want), x);
  }

  /** The check of the other LUs. */
  lemma OthersAccepted(g: Geometry, want: seq<Lu>, k: nat)
    requires GeometryOk(g) && ConfigOk(want) && k < LUS && LowTaker(want) && !Takes(want[k])
    ensures AcceptedAt(g, want, Provisioned(g, want), k) <==> LuAcceptable(g, want, k)
  {
    hide Swab, RawUnits, SizedUnits, WrittenSize, CheckedSize, LeftFrom, Provisioned;
    ProvisionedAt(g, want, k);
    if want[k].allocUnits != 0 {
      SizedUnitsIs(g, want[k]);
    } else {
      SwabZero(0);
    }
  }

  /**
   * LU 0 takes the rest and the others are as a pass leaves them: the check rejects a size
   * x of LU 0 exactly if 2 x is what LU 0 is to take (modulo 2^32), so at most two sizes.
   */
  lemma AnySizeAccepted(g: Geometry, want: seq<Lu>, x: U32, bootLunEn: U32)
    requires GeometryOk(g) && ConfigOk(want) && LowTaker(want) && Takes(want[0])
    ensures Check(g, want, Resized(g, want, x), bootLunEn) <==>
      && bootLunEn != 0
      && (forall k :: 0 < k < LUS ==> LuAcceptable(g, want, k))
      && Wrap32(2 * x) != Rightful(g, want)
  {
    hide Check, AcceptedAt, LuAcceptable, Provisioned, Rightful, Takes, Wrap32;
    var r := Resized(g, want, x);
    CheckIs(g, want, r, bootLunEn);
    TakerAccepted(g, want, x);
    forall k | 0 < k < LUS
      ensures AcceptedAt(g, want, r, k) <==> LuAcceptable(g, want, k)
    {
      AcceptedKept(g, want, r, Provisioned(g, want), k);
      OthersAccepted(g, want, k);
    }
  }

  /** What a pass writes is accepted exactly if the wanted configuration is acceptable and the boot LU enabled. */
  lemma CheckAfterPass(g: Geometry, want: seq<Lu>, units: seq<Lu>, bootLunEn: U32)
    requires GeometryOk(g) && ConfigOk(want) && ConfigOk(units) && LowTaker(want)
    ensures Check(g, want, EditPass(g, want, units), bootLunEn) <==> Acceptable(g, want) && bootLunEn != 0
  {
    hide Check, AcceptedAt, LuAcceptable, EditPass, Provisioned, Takes;
    PassIs(g, want, units);
    var r := Provisioned(g, want);
    CheckIs(g, want, r, bootLunEn);
    forall k | 0 <= k < LUS
      ensures AcceptedAt(g, want, r, k) <==> LuAcceptable(g, want, k)
    {
      if Takes(want[k]) {
        TakerAfterPass(g, want);
      } else {
        OthersAccepted(g, want, k);
      }
    }
  }

  lemma TakerAfterPass(g: Geometry, want: seq<Lu>)
    requires GeometryOk(g) && ConfigOk(want) && Takes(want[0])
    ensures AcceptedAt(g, want, Provisioned(g, want), 0) <==> LuAcceptable(g, want, 0)
  {
    hide AcceptedAt, Own, Swab;
    assert Resized(g, want, Rightful(g, want)) == Provisioned(g, want);
    TakerAccepted(g, want, Rightful(g, want));
    DoubleIsSame(Rightful(g, want));
  }

  lemma DoubleIsSame(x: U32)
    ensures Wrap32(2 * x) == x <==> x == 0
  {
  }

  // ---- provisioning ----

  const MAX_RETRIES := 3

  /** What the device stores, and how many passes were made. */
  datatype Provision = Provision(units: seq<Lu>, bootLunEn: U32, passes: nat)

  /** The loop of ufs_set_configuration_descriptor on a device that accepts and stores what is written. */
  function Configure(g: Geometry, want: seq<Lu>, p: Provision): (r: Provision)
    requires GeometryOk(g) && ConfigOk(want) && ConfigOk(p.units) && p.passes <= MAX_RETRIES
    ensures ConfigOk(r.units) && r.passes <= MAX_RETRIES
    decreases MAX_RETRIES - p.passes
  {
    if Check(g, want, p.units, p.bootLunEn) || p.passes == MAX_RETRIES then p
    else Configure(g, want, Provision(EditPass(g, want, p.units), 1, p.passes + 1))
  }

  /** The value returned: 1 whenever a pass was made, whether the last check succeeded or not. */
  function Returned(p: Provision): int {
    if p.passes > 0 then 1 else 0
  }

  /** The device after n passes. */
  function After(g: Geometry, want: seq<Lu>, units: seq<Lu>, bootLunEn: U32, n: nat): (r: Provision)
    requires GeometryOk(g) && ConfigOk(want) && ConfigOk(units)
    ensures ConfigOk(r.units)
  {
    Provision(Passes(g, want, units, n), if n == 0 then bootLunEn else 1, n)
  }

  predicate CheckAfter(g: Geometry, want: seq<Lu>, units: seq<Lu>, bootLunEn: U32, n: nat)
    requires GeometryOk(g) && ConfigOk(want) && ConfigOk(units)
  {
    var p := After(g, want, units, bootLunEn, n);
    Check(g, want, p.units, p.bootLunEn)
  }

  lemma {:induction false} ConfigureFrom(g: Geometry, want: seq<Lu>, units: seq<Lu>, bootLunEn: U32, n: nat)
    requires GeometryOk(g) && ConfigOk(want) && ConfigOk(units) && n <= MAX_RETRIES
    ensures var r := Configure(g, want, After(g, want, units, bootLunEn, n));
      && n <= r.passes && r == After(g, want, units, bootLunEn, r.passes)
      && (forall k :: n <= k < r.passes ==> !CheckAfter(g, want, units, bootLunEn, k))
      && (r.passes < MAX_RETRIES ==> CheckAfter(g, want, units, bootLunEn, r.passes))
    decreases MAX_RETRIES - n
  {
    hide Check, EditPass;
    if n < MAX_RETRIES && !CheckAfter(g, want, units, bootLunEn, n) {
      ConfigureFrom(g, want, units, bootLunEn, n + 1);
    }
  }

  /**
   * Whatever is wanted and whatever the device held: the passes made are the fewest after
   * which the check accepts, and if three have not been enough, none would be.
   */
  lemma ConfigureEnds(g: Geometry, want: seq<Lu>, units: seq<Lu>, bootLunEn: U32)
    requires GeometryOk(g) && ConfigOk(want) && ConfigOk(units)
    ensures var r := Configure(g, want, Provision(units, bootLunEn, 0));
      && r == After(g, want, units, bootLunEn, r.passes)
      && (forall k :: 0 <= k < r.passes ==> !CheckAfter(g, want, units, bootLunEn, k))
      && (Check(g, want, r.units, r.bootLunEn) <==> r.passes < MAX_RETRIES)
      && (r.passes == MAX_RETRIES ==> EditPass(g, want, r.units) == r.units)
  {
    hide Check, EditPass, Settled;
    ConfigureFrom(g, want, units, bootLunEn, 0);
    PassThrice(g, want, units);
    var two := Passes(g, want, units, 2);
    assert Passes(g, want, units, 3) == EditPass(g, want, two);
    var r := Configure(g, want, Provision(units, bootLunEn, 0));
    if r.passes == MAX_RETRIES {
      assert !CheckAfter(g, want, units, bootLunEn, 2);
    }
  }

  /**
   * With the rest taken by LU 0 at most: no pass if the check accepts what is there; one
   * pass, which it then accepts, if what is wanted is acceptable; otherwise three for nothing.
   */
  lemma ConfigurePasses(g: Geometry, want: seq<Lu>, units: seq<Lu>, bootLunEn: U32)
    requires GeometryOk(g) && ConfigOk(want) && ConfigOk(units) && LowTaker(want)
    ensures var r := Configure(g, want, Provision(units, bootLunEn, 0));
      && (Check(g, want, units, bootLunEn) ==> r == Provision(units, bootLunEn, 0) && Returned(r) == 0)
      && (!Check(g, want, units, bootLunEn) ==>
            r == Provision(Provisioned(g, want), 1, if Acceptable(g, want) then 1 else MAX_RETRIES) && Returned(r) == 1)
  {
    hide Check, Acceptable, EditPass, Provisioned, LowTaker;
    var r := Provisioned(g, want);
    PassIs(g, want, units);
    PassIs(g, want, r);
    CheckAfterPass(g, want, units, 1);
    var p1 := Provision(r, 1, 1);
    var p2 := Provision(r, 1, 2);
    var p3 := Provision(r, 1, 3);
    assert Configure(g, want, p3) == p3;
    assert Configure(g, want, p2) == if Check(g, want, r, 1) then p2 else p3;
    assert Configure(g, want, p1) == if Check(g, want, r, 1) then p1 else Configure(g, want, p2);
  }

  /** A device whose LU 0 has some wrong size is taken for right, and left as it is. */
  lemma WrongSizeStays(g: Geometry, want: seq<Lu>, x: U32, bootLunEn: U32)
    requires GeometryOk(g) && ConfigOk(want) && LowTaker(want) && Takes(want[0]) && Acceptable(g, want)
    requires Wrap32(2 * x) != Rightful(g, want) && bootLunEn != 0
    ensures var device := Provision(Resized(g, want, x), bootLunEn, 0);
      Configure(g, want, device) == device && (x != Rightful(g, want) ==> Resized(g, want, x) != Provisioned(g, want))
  {
    hide Check, LuAcceptable, Takes, Wrap32, Rightful, EditPass, Own, Swab;
    AnySizeAccepted(g, want, x, bootLunEn);
    assert Provisioned(g, want)[0] == want[0].(allocUnits := Swab(Rightful(g, want))) by {
      ProvisionedAt(g, want, 0);
    }
    SwabInvolution(x);
    SwabInvolution(Rightful(g, want));
  }

  /**
   * Acceptance means that a device holds what a pass would leave exactly if every LU has a
   * capacity and every size survives.
   */
  lemma AcceptedIsProvisioned(g: Geometry, want: seq<Lu>)
    requires GeometryOk(g) && ConfigOk(want)
    ensures (forall units, b :: ConfigOk(units) && Check(g, want, units, b) ==> units == Provisioned(g, want)) <==>
      forall k :: 0 <= k < LUS ==> want[k].allocUnits != 0 && SizeSurvives(g, want[k])
  {
    hide Check, WrittenSize, CheckedSize, Provisioned, Swab;
    var c := Provisioned(g, want);
    CheckPins(g, want, c);
    if forall k :: 0 <= k < LUS ==> want[k].allocUnits != 0 {
      forall k | 0 <= k < LUS
        ensures c[k] == want[k].(allocUnits := Swab(CheckedSize(g, want[k]))) <==> SizeSurvives(g, want[k])
      {
        SizedAt(g, want, k);
        SizedUnitsIs(g, want[k]);
        SwabEquals(SizedUnits(g, want[k]), CheckedSize(g, want[k]));
      }
    }
  }

  lemma SizedAt(g: Geometry, want: seq<Lu>, k: nat)
    requires GeometryOk(g) && ConfigOk(want) && k < LUS && forall i :: 0 <= i < LUS ==> want[i].allocUnits != 0
    ensures Provisioned(g, want)[k] == want[k].(allocUnits := SizedUnits(g, want[k]))
  {
    hide SizedUnits, Swab, RawUnits;
  }

  // ---- an example ----

  const PLAIN := Settings(0, 0, 0, 0)

  /** 1001 units of one segment each; LU 0 is to take all of them. */
  const SMALL := Geometry(0x0100_0000, 0xE903_0000, 1, 1)

  const ALL_FOR_LU0 := seq(LUS, i => Lu(if i == 0 then 1 else 0, 0, 0, 0, PLAIN, 0))

  lemma SmallIs()
    ensures GeometryOk(SMALL) && RawUnits(SMALL) == 1001
  {
    hide Swab;
    SwabOfBytes(0, 0, 0, 1);
    SwabOfBytes(0, 0, 0x03, 0xE9);
  }

  lemma {:induction false} NothingAllocated(units: seq<Lu>, n: nat)
    requires n <= |units| && forall i :: 0 <= i < |units| ==> units[i].allocUnits == 0
    ensures Total(units, n) == 0
  {
    hide Swab;
    SwabZero(0);
    if n > 0 {
      NothingAllocated(units, n - 1);
    }
  }

  /** A device with nothing allocated passes the check and stays that way. */
  lemma EmptyDeviceAccepted()
    ensures GeometryOk(SMALL) && RawUnits(SMALL) == 1001
    ensures Provisioned(SMALL, ALL_FOR_LU0)[0].allocUnits == Swab(1001)
    ensures Check(SMALL, ALL_FOR_LU0, ALL_FOR_LU0, 1)
    ensures Configure(SMALL, ALL_FOR_LU0, Provision(ALL_FOR_LU0, 1, 0)) == Provision(ALL_FOR_LU0, 1, 0)
  {
    SmallIs();
    hide Swab, Check, RawUnits, GeometryOk;
    assert Own(SMALL, ALL_FOR_LU0) == ALL_FOR_LU0;
    SwabZero(0);
    forall k: nat | k <= LUS
      ensures Total(ALL_FOR_LU0, k) == 0
    {
      NothingAllocated(ALL_FOR_LU0, k);
    }
    CheckIs(SMALL, ALL_FOR_LU0, ALL_FOR_LU0, 1);
  }
}
