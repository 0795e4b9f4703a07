/**
 * The CRC routines of the slot module: GPLDrivers/Drivers/Op6tSlotDxe/crc32.c, lines 94-154.
 *
 * The program runs the register most significant bit first, reflecting every input
 * byte and the final register.  Both forms compute the same CRC-32.
 */
module Crc32Code {
  import opened Crc32Spec
  import opened Crc32Algebra

  const MSB_POLYNOMIAL: bv32 := 0x04C1_1DB7
  const SIGN: bv32 := 0x8000_0000

  /** The C expression 1 << k. */
  function OneAt(k: nat): bv32
    requires k < 32
  {
    if k == 0 then 1 else Double(OneAt(k - 1))
  }

  function Double(x: bv32): bv32 {
    x << 1
  }

  /** C's x & mask used as a truth value. */
  function Meets(x: bv32, mask: bv32): bool {
    x & mask != 0
  }

  /** C's x | mask. */
  function Set(x: bv32, mask: bv32): bv32 {
    x | mask
  }

  function Bit(x: bv32, k: nat): bool
    requires k < 32
  {
    Meets(x, OneAt(k))
  }

  /** C's right shift by one of a signed 32-bit integer, which copies the sign bit. */
  function ShiftRightSigned(x: bv32): bv32 {
    (x >> 1) | (x & SIGN)
  }

  lemma DoubleDisjoint(a: bv32, b: bv32)
    ensures !Meets(a, b) ==> !Meets(Double(a), Double(b))
    ensures !Meets(1, Double(b)) && !Meets(Double(a), 1)
  {
  }

  lemma {:induction false} OneAtDisjoint(j: nat, k: nat)
    requires j < 32 && k < 32 && j != k
    ensures !Meets(OneAt(j), OneAt(k))
  {
    hide Meets, Double;
    if j == 0 {
      DoubleDisjoint(0, OneAt(k - 1));
    } else if k == 0 {
      DoubleDisjoint(OneAt(j - 1), 0);
    } else {
      OneAtDisjoint(j - 1, k - 1);
      DoubleDisjoint(OneAt(j - 1), OneAt(k - 1));
    }
  }

  lemma OneAtLiterals()
    ensures OneAt(0) == 0x1 && OneAt(1) == 0x2 && OneAt(2) == 0x4 && OneAt(3) == 0x8
    ensures OneAt(4) == 0x10 && OneAt(5) == 0x20 && OneAt(6) == 0x40 && OneAt(7) == 0x80
    ensures OneAt(8) == 0x100 && OneAt(9) == 0x200 && OneAt(10) == 0x400 && OneAt(11) == 0x800
    ensures OneAt(12) == 0x1000 && OneAt(13) == 0x2000 && OneAt(14) == 0x4000 && OneAt(15) == 0x8000
    ensures OneAt(16) == 0x1_0000 && OneAt(17) == 0x2_0000 && OneAt(18) == 0x4_0000 && OneAt(19) == 0x8_0000
    ensures OneAt(20) == 0x10_0000 && OneAt(21) == 0x20_0000 && OneAt(22) == 0x40_0000 && OneAt(23) == 0x80_0000
    ensures OneAt(24) == 0x100_0000 && OneAt(25) == 0x200_0000 && OneAt(26) == 0x400_0000 && OneAt(27) == 0x800_0000
    ensures OneAt(28) == 0x1000_0000 && OneAt(29) == 0x2000_0000 && OneAt(30) == 0x4000_0000 && OneAt(31) == SIGN
  {
  }

  lemma TopOne()
    ensures OneAt(31) == SIGN
  {
    OneAtLiterals();
  }

  lemma DoubleZero(a: bv32)
    ensures Double(a) != 0 ==> a != 0
    ensures a != 0 ==> Meets(a, a)
    ensures SIGN != 0
  {
  }

  lemma {:induction false} OneAtNonzero(k: nat)
    requires k < 32
    ensures OneAt(k) != 0 && Meets(OneAt(k), OneAt(k))
    decreases 32 - k
  {
    hide Meets, Double;
    if k == 31 {
      TopOne();
    } else {
      OneAtNonzero(k + 1);
    }
    DoubleZero(OneAt(k));
  }

  lemma SetMeets(x: bv32, o: bv32, p: bv32)
    ensures Meets(Set(x, o), p) == (Meets(x, p) || Meets(o, p))
  {
    hide Set;
    Distribute(x, o, p);
    EitherNonzero(x & p, o & p);
  }

  lemma Distribute(x: bv32, o: bv32, p: bv32)
    ensures Set(x, o) & p == Set(x & p, o & p)
  {
    assert (x | o) & p == (x & p) | (o & p);
  }

  lemma EitherNonzero(a: bv32, b: bv32)
    ensures Set(a, b) != 0 <==> a != 0 || b != 0
  {
  }

  lemma BitOfSet(x: bv32, k: nat, j: nat)
    requires k < 32 && j < 32
    ensures Bit(Set(x, OneAt(k)), j) == (Bit(x, j) || j == k)
  {
    hide OneAt, Meets, Set;
    SetMeets(x, OneAt(k), OneAt(j));
    if j != k {
      OneAtDisjoint(k, j);
    } else {
      OneAtNonzero(j);
    }
  }

  lemma ShiftMeets(x: bv32, o: bv32)
    requires !Meets(o, SIGN)
    ensures Meets(ShiftRightSigned(x), o) == Meets(x, Double(o))
  {
  }

  lemma BitOfShift(x: bv32, j: nat)
    requires j < 31
    ensures Bit(ShiftRightSigned(x), j) == Bit(x, j + 1)
  {
    hide ShiftRightSigned, Meets, Double;
    TopOne();
    OneAtDisjoint(j, 31);
    ShiftMeets(x, OneAt(j));
  }

  lemma NoBits(j: nat)
    requires j < 32
    ensures !Bit(0, j)
  {
  }

  lemma LowestOne(x: bv32)
    ensures Bit(x, 0) == Meets(x, 1)
  {
  }

  /** y holds the i lowest bits of x in reverse order below position len, and nothing else. */
  ghost predicate PartlyReversed(x: bv32, y: bv32, len: nat, i: nat)
    requires i <= len <= 32
  {
    forall j :: 0 <= j < 32 ==> Bit(y, j) == (len - i <= j < len && Bit(x, len - 1 - j))
  }

  /** y holds the len low bits of x in reverse order, and nothing else. */
  ghost predicate Reversed(x: bv32, y: bv32, len: nat)
    requires len <= 32
  {
    forall j :: 0 <= j < 32 ==> Bit(y, j) == (j < len && Bit(x, len - 1 - j))
  }

  /** d is x shifted right by i, as far as the bits of x reach. */
  ghost predicate Shifted(x: bv32, d: bv32, i: nat) {
    forall j :: 0 <= j < 32 - i ==> Bit(d, j) == Bit(x, j + i)
  }

  lemma ReversedStep(x: bv32, y: bv32, len: nat, i: nat)
    requires i < len <= 32 && PartlyReversed(x, y, len, i)
    ensures PartlyReversed(x, if Bit(x, i) then Set(y, OneAt(len - 1 - i)) else y, len, i + 1)
  {
    hide Bit, OneAt, Set;
    var k := len - 1 - i;
    var y' := if Bit(x, i) then Set(y, OneAt(k)) else y;
    forall j | 0 <= j < 32
      ensures Bit(y', j) == (len - i - 1 <= j < len && Bit(x, len - 1 - j))
    {
      BitOfSet(y, k, j);
    }
  }

  lemma ShiftedStep(x: bv32, d: bv32, i: nat)
    requires i < 32 && Shifted(x, d, i)
    ensures Shifted(x, ShiftRightSigned(d), i + 1)
    ensures Meets(d, 1) == Bit(x, i)
  {
    hide Bit, ShiftRightSigned, Meets;
    LowestOne(d);
    assert Bit(d, 0) == Bit(x, 0 + i);
    forall j | 0 <= j < 32 - (i + 1)
      ensures Bit(ShiftRightSigned(d), j) == Bit(x, j + (i + 1))
    {
      BitOfShift(d, j);
      assert Bit(d, j + 1) == Bit(x, (j + 1) + i);
    }
  }

  lemma NothingReversed(x: bv32, len: nat)
    requires len <= 32
    ensures PartlyReversed(x, 0, len, 0) && Shifted(x, x, 0)
  {
    hide Bit;
    forall j | 0 <= j < 32
      ensures !Bit(0, j)
    {
      NoBits(j);
    }
  }

  method Reflect(data: bv32, len: nat) returns (ref: bv32)
    requires len <= 32
    ensures Reversed(data, ref, len)
  {
    hide Bit, OneAt, ShiftRightSigned, Set, Meets, Shifted;
    ref := 0;
    var d := data;
    NothingReversed(data, len);
    for i := 0 to len
      invariant Shifted(data, d, i)
      invariant PartlyReversed(data, ref, len, i)
    {
      ShiftedStep(data, d, i);
      ReversedStep(data, ref, len, i);
      if Meets(d, 1) {
        ref := Set(ref, OneAt(len - 1 - i));
      }
      d := ShiftRightSigned(d);
    }
  }

  /** Two words with the same bits are equal. */
  lemma SameBits(x: bv32, y: bv32)
    requires forall j :: 0 <= j < 32 ==> Bit(x, j) == Bit(y, j)
    ensures x == y
  {
    OneAtLiterals();
    hide OneAt, Meets;
    assert forall j :: 0 <= j < 32 ==> Meets(x, OneAt(j)) == Meets(y, OneAt(j)) by {
      forall j | 0 <= j < 32
        ensures Meets(x, OneAt(j)) == Meets(y, OneAt(j))
      {
        assert Bit(x, j) == Bit(y, j);
      }
    }
    SameMasks(x, y);
  }

  lemma SameMasks(x: bv32, y: bv32)
    requires Meets(x, 0x1) == Meets(y, 0x1) && Meets(x, 0x2) == Meets(y, 0x2)
    requires Meets(x, 0x4) == Meets(y, 0x4) && Meets(x, 0x8) == Meets(y, 0x8)
    requires Meets(x, 0x10) == Meets(y, 0x10) && Meets(x, 0x20) == Meets(y, 0x20)
    requires Meets(x, 0x40) == Meets(y, 0x40) && Meets(x, 0x80) == Meets(y, 0x80)
    requires Meets(x, 0x100) == Meets(y, 0x100) && Meets(x, 0x200) == Meets(y, 0x200)
    requires Meets(x, 0x400) == Meets(y, 0x400) && Meets(x, 0x800) == Meets(y, 0x800)
    requires Meets(x, 0x1000) == Meets(y, 0x1000) && Meets(x, 0x2000) == Meets(y, 0x2000)
    requires Meets(x, 0x4000) == Meets(y, 0x4000) && Meets(x, 0x8000) == Meets(y, 0x8000)
    requires Meets(x, 0x10000) == Meets(y, 0x10000) && Meets(x, 0x20000) == Meets(y, 0x20000)
    requires Meets(x, 0x40000) == Meets(y, 0x40000) && Meets(x, 0x80000) == Meets(y, 0x80000)
    requires Meets(x, 0x100000) == Meets(y, 0x100000) && Meets(x, 0x200000) == Meets(y, 0x200000)
    requires Meets(x, 0x400000) == Meets(y, 0x400000) && Meets(x, 0x800000) == Meets(y, 0x800000)
    requires Meets(x, 0x1000000) == Meets(y, 0x1000000) && Meets(x, 0x2000000) == Meets(y, 0x2000000)
    requires Meets(x, 0x4000000) == Meets(y, 0x4000000) && Meets(x, 0x8000000) == Meets(y, 0x8000000)
    requires Meets(x, 0x10000000) == Meets(y, 0x10000000) && Meets(x, 0x20000000) == Meets(y, 0x20000000)
    requires Meets(x, 0x40000000) == Meets(y, 0x40000000) && Meets(x, 0x80000000) == Meets(y, 0x80000000)
    ensures x == y
  {
  }

  /** A reversal is determined by its bits. */
  lemma ReversedUnique(x: bv32, y: bv32, z: bv32, len: nat)
    requires len <= 32 && Reversed(x, y, len) && Reversed(x, z, len)
    ensures y == z
  {
    hide Bit;
    SameBits(y, z);
  }

  /** Reversing twice restores any value that fits in len bits. */
  lemma ReflectInvolution(x: bv32, y: bv32, z: bv32, len: nat)
    requires len <= 32 && Reversed(x, y, len) && Reversed(y, z, len)
    requires forall j :: len <= j < 32 ==> !Bit(x, j)
    ensures z == x
  {
    hide Bit;
    forall j | 0 <= j < 32
      ensures Bit(z, j) == Bit(x, j)
    {
      if j < len {
        assert Bit(z, j) == Bit(y, len - 1 - j);
        assert len - 1 - (len - 1 - j) == j;
      }
    }
    SameBits(z, x);
  }

  // ---- bits of shifted and added words ----

  lemma DoubleMeets(x: bv32, o: bv32)
    ensures !Meets(o, SIGN) ==> Meets(Double(x), Double(o)) == Meets(x, o)
    ensures !Meets(Double(x), 1)
  {
  }

  lemma BitOfDouble(x: bv32, j: nat)
    requires j < 32
    ensures Bit(Double(x), j) == (j > 0 && Bit(x, j - 1))
  {
    hide Meets, Double;
    if j == 0 {
      DoubleMeets(x, 1);
    } else {
      TopOne();
      OneAtDisjoint(j - 1, 31);
      DoubleMeets(x, OneAt(j - 1));
    }
  }

  function Halve(x: bv32): bv32 {
    x >> 1
  }

  lemma HalveMeets(x: bv32, o: bv32)
    ensures !Meets(o, SIGN) ==> Meets(Halve(x), o) == Meets(x, Double(o))
    ensures !Meets(Halve(x), SIGN)
  {
  }

  lemma BitOfHalve(x: bv32, j: nat)
    requires j < 32
    ensures Bit(Halve(x), j) == (j < 31 && Bit(x, j + 1))
  {
    hide Meets, Double, Halve;
    TopOne();
    HalveMeets(x, OneAt(j));
    if j < 31 {
      OneAtDisjoint(j, 31);
    }
  }

  /** A mask of exactly one bit. */
  predicate Single(o: bv32) {
    o != 0 && o & (o - 1) == 0
  }

  lemma SingleDouble(o: bv32)
    requires Single(o) && Double(o) != 0
    ensures Single(Double(o))
  {
  }

  lemma {:induction false} OneAtSingle(k: nat)
    requires k < 32
    ensures Single(OneAt(k))
  {
    hide Double;
    if k == 0 {
    } else {
      OneAtSingle(k - 1);
      OneAtNonzero(k);
      hide Single;
      SingleDouble(OneAt(k - 1));
    }
  }

  lemma SingleParts(x: bv32, o: bv32)
    requires Single(o)
    ensures x & o == 0 || x & o == o
  {
  }

  lemma XorDistribute(x: bv32, y: bv32, o: bv32)
    ensures (x ^ y) & o == (x & o) ^ (y & o)
    ensures o ^ o == 0 && o ^ 0 == o && 0 ^ o == o
  {
  }

  lemma XorMeets(x: bv32, y: bv32, o: bv32)
    requires Single(o)
    ensures Meets(Xor(x, y), o) == (Meets(x, o) != Meets(y, o))
  {
    SingleParts(x, o);
    SingleParts(y, o);
    XorDistribute(x, y, o);
  }

  lemma BitOfXor(x: bv32, y: bv32, j: nat)
    requires j < 32
    ensures Bit(Xor(x, y), j) == (Bit(x, j) != Bit(y, j))
  {
    hide Meets, Xor, Single, OneAt;
    OneAtSingle(j);
    XorMeets(x, y, OneAt(j));
  }

  // ---- the most-significant-bit-first register ----

  /** One round of the inner loop of calculate_crc32. */
  function MsbStep(regs: bv32, msb: bool): bv32 {
    if Meets(regs, SIGN) != msb then Xor(Double(regs), MSB_POLYNOMIAL) else Double(regs)
  }

  /** The two polynomials are each other's reversal. */
  lemma PolynomialsReversed(j: nat)
    requires j < 32
    ensures Bit(LSB_POLYNOMIAL, j) == Bit(MSB_POLYNOMIAL, 31 - j)
  {
    OneAtLiterals();
    hide OneAt;
  }

  lemma StepCases(r: bv32, b: bool)
    ensures Step(r, b) == if Meets(r, 1) != b then Xor(Halve(r), LSB_POLYNOMIAL) else Halve(r)
  {
    AddBit(r, b);
    ShiftCases(Xor(r, BitValue(b)));
    LowMeets(r);
    hide Xor, Halve, Meets, Shift, BitValue;
  }

  lemma AddBit(r: bv32, b: bool)
    ensures Halve(Xor(r, BitValue(b))) == Halve(r)
    ensures (Xor(r, BitValue(b)) & 1 == 1) == ((r & 1 == 1) != b)
  {
  }

  lemma ShiftCases(y: bv32)
    ensures Shift(y) == if y & 1 == 1 then Xor(Halve(y), LSB_POLYNOMIAL) else Halve(y)
  {
  }

  lemma LowMeets(r: bv32)
    ensures Meets(r, 1) == (r & 1 == 1)
  {
  }

  /** Reversal carries one round of the program to one round of the specification. */
  lemma MsbStepReversed(regs: bv32, r: bv32, b: bool)
    requires Reversed(regs, r, 32)
    ensures Reversed(MsbStep(regs, b), Step(r, b), 32)
  {
    hide Bit, Meets, Xor, Halve, Double, Step;
    StepCases(r, b);
    LowestOne(r);
    TopBit(regs);
    assert Bit(r, 0) == Bit(regs, 31);
    forall j | 0 <= j < 32
      ensures Bit(Step(r, b), j) == Bit(MsbStep(regs, b), 31 - j)
    {
      BitOfHalve(r, j);
      BitOfDouble(regs, 31 - j);
      BitOfXor(Halve(r), LSB_POLYNOMIAL, j);
      BitOfXor(Double(regs), MSB_POLYNOMIAL, 31 - j);
      PolynomialsReversed(j);
      if j < 31 {
        assert Bit(r, j + 1) == Bit(regs, 31 - (j + 1));
      }
    }
  }

  lemma TopBit(x: bv32)
    ensures Bit(x, 31) == Meets(x, SIGN)
  {
    TopOne();
  }

  lemma OnesReversed()
    ensures Reversed(ALL_ONES, ALL_ONES, 32)
  {
    OneAtLiterals();
    hide OneAt;
  }

  /** d is x shifted left by i. */
  ghost predicate ShiftedLeft(x: bv32, d: bv32, i: nat) {
    forall j :: i <= j < 32 ==> Bit(d, j) == Bit(x, j - i)
  }

  lemma ShiftedLeftStep(x: bv32, d: bv32, i: nat)
    requires i < 32 && ShiftedLeft(x, d, i)
    ensures ShiftedLeft(x, Double(d), i + 1)
  {
    hide Bit, Double;
    forall j | i + 1 <= j < 32
      ensures Bit(Double(d), j) == Bit(x, j - (i + 1))
    {
      BitOfDouble(d, j);
    }
  }

  lemma {:induction false} LowBitsAre(b: Byte, n: nat, i: nat)
    requires i < n <= 8
    ensures LowBits(b, n)[i] == Bit(b as bv32, i)
    decreases n
  {
    hide Bit, Low;
    if i == 0 {
      ByteLow(b);
    } else {
      LowBitsAre(b >> 1, n - 1, i - 1);
      ByteHalve(b);
      BitOfHalve(b as bv32, i - 1);
    }
  }

  lemma ByteLow(b: Byte)
    ensures Low(b) == Bit(b as bv32, 0)
  {
  }

  lemma ByteHalve(b: Byte)
    ensures (b >> 1) as bv32 == Halve(b as bv32)
  {
  }

  /** The bit the program takes from the reflected byte is the next bit of the message. */
  lemma MessageBit(b: Byte, reflected: bv32, d: bv32, i: nat)
    requires i < 8 && Reversed(b as bv32, reflected, 8) && ShiftedLeft(reflected, d, i)
    ensures Meets(d, 0x80) == LowBits(b, 8)[i]
  {
    hide Bit;
    LowBitsAre(b, 8, i);
    SeventhBit(d);
    assert Bit(d, 7) == Bit(reflected, 7 - i);
    assert 8 - 1 - (7 - i) == i;
  }

  lemma SeventhBit(d: bv32)
    ensures Bit(d, 7) == Meets(d, 0x80)
  {
    OneAtLiterals();
  }

  lemma RunOneMore(r: bv32, bits: seq<bool>, i: nat)
    requires i < |bits|
    ensures RunBits(r, bits[..i + 1]) == Step(RunBits(r, bits[..i]), bits[i])
  {
    hide Step;
    assert bits[..i + 1] == bits[..i] + [bits[i]];
    RunBitsConcat(r, bits[..i], [bits[i]]);
    assert [bits[i]][1..] == [];
  }

  /**
   * calculate_crc32: the most-significant-bit-first register with reflected bytes and
   * reflected result is the CRC-32.
   */
  method CalculateCrc32(buffer: array<Byte>, len: nat) returns (crc: bv32)
    requires len <= buffer.Length
    ensures crc == Crc32(buffer[..len])
  {
    hide Bit, Meets, Double, Xor, Step, StepByte, Reversed, ShiftedLeft, LowBits, RunBits;
    var regs := ALL_ONES;
    ghost var lsb := ALL_ONES;
    OnesReversed();
    for i := 0 to len
      invariant Reversed(regs, lsb, 32)
      invariant lsb == Run(ALL_ONES, buffer[..i])
    {
      var dataByte := Reflect(buffer[i] as bv32, 8);
      ghost var reflected, start, bits := dataByte, lsb, LowBits(buffer[i], 8);
      ShiftedLeftStart(reflected);
      NoBitsYet(start, bits);
      for j := 0 to 8
        invariant ShiftedLeft(reflected, dataByte, j)
        invariant Reversed(regs, lsb, 32)
        invariant lsb == RunBits(start, bits[..j])
      {
        var msb := Meets(dataByte, 0x80);
        MessageBit(buffer[i], reflected, dataByte, j);
        MsbStepReversed(regs, lsb, msb);
        RunOneMore(start, bits, j);
        lsb := Step(lsb, msb);
        var regsMsb := Meets(regs, SIGN);
        regs := Double(regs);
        if regsMsb != msb {
          regs := Xor(regs, MSB_POLYNOMIAL);
        }
        ShiftedLeftStep(reflected, dataByte, j);
        dataByte := Double(dataByte);
      }
      assert bits[..8] == bits;
      StepByteIsBits(start, buffer[i]);
      assert buffer[..i + 1][..i] == buffer[..i];
    }
    var reflectedRegs := Reflect(regs, 32);
    ReversedUnique(regs, reflectedRegs, lsb, 32);
    crc := Xor(reflectedRegs, ALL_ONES);
  }

  lemma ShiftedLeftStart(x: bv32)
    ensures ShiftedLeft(x, x, 0)
  {
  }

  lemma NoBitsYet(r: bv32, bits: seq<bool>)
    ensures RunBits(r, bits[..0]) == r
  {
  }
}
