/** Algebra of the CRC register: linearity, invertibility and burst-error detection. */
module Crc32Algebra {
  import opened Crc32Spec

  // ---- small facts about 32-bit words ----

  lemma XorZero(a: bv32)
    ensures Xor(a, 0) == a
  {
  }

  lemma XorCommutes(a: bv32, b: bv32)
    ensures Xor(a, b) == Xor(b, a)
  {
  }

  lemma XorAssociative(a: bv32, b: bv32, c: bv32)
    ensures Xor(a, Xor(b, c)) == Xor(Xor(a, b), c)
  {
  }

  lemma XorSelf(a: bv32, x: bv32)
    ensures Xor(Xor(a, x), x) == a
  {
  }

  lemma XorCancel(a: bv32, b: bv32, x: bv32)
    requires Xor(a, x) == Xor(b, x)
    ensures a == b
  {
    hide *;
    XorSelf(a, x);
    XorSelf(b, x);
  }

  lemma XorRegroup(a: bv32, b: bv32, c: bv32, d: bv32)
    ensures Xor(Xor(a, b), Xor(c, d)) == Xor(Xor(a, c), Xor(b, d))
  {
    hide *;
    XorAssociative(Xor(a, b), c, d);
    XorAssociative(a, b, c);
    XorCommutes(b, c);
    XorAssociative(a, c, b);
    XorAssociative(Xor(a, c), b, d);
  }

  lemma XorPolynomial(x: bv32, y: bv32, p: bv32)
    ensures (x ^ p) ^ y == (x ^ y) ^ p
    ensures x ^ (y ^ p) == (x ^ y) ^ p
    ensures (x ^ p) ^ (y ^ p) == x ^ y
  {
  }

  lemma HalveXor(a: bv32, b: bv32)
    ensures (a ^ b) >> 1 == (a >> 1) ^ (b >> 1)
  {
  }

  lemma LowXor(a: bv32, b: bv32)
    ensures (a ^ b) & 1 == 1 <==> (a & 1 == 1) != (b & 1 == 1)
  {
  }

  lemma WidenXor(x: Byte, y: Byte)
    ensures (x ^ y) as bv32 == Xor(x as bv32, y as bv32)
  {
  }

  // ---- the register step is linear and invertible ----

  lemma ShiftOfXor(a: bv32, b: bv32)
    ensures Shift(a ^ b) == Shift(a) ^ Shift(b)
  {
    HalveXor(a, b);
    LowXor(a, b);
    XorPolynomial(a >> 1, b >> 1, LSB_POLYNOMIAL);
  }

  lemma ShiftXor(a: bv32, b: bv32)
    ensures Shift(Xor(a, b)) == Xor(Shift(a), Shift(b))
  {
    hide Shift;
    ShiftOfXor(a, b);
  }

  lemma ShiftInjective(a: bv32, b: bv32)
    requires Shift(a) == Shift(b)
    ensures a == b
  {
  }

  lemma {:induction false} ShiftByXor(a: bv32, b: bv32, n: nat)
    ensures ShiftBy(Xor(a, b), n) == Xor(ShiftBy(a, n), ShiftBy(b, n))
    decreases n
  {
    hide Xor, Shift;
    if n == 0 {
    } else {
      ShiftXor(a, b);
      ShiftByXor(Shift(a), Shift(b), n - 1);
    }
  }

  lemma StepByteXor(r: bv32, x: Byte, s: bv32, y: Byte)
    ensures StepByte(Xor(r, s), x ^ y) == Xor(StepByte(r, x), StepByte(s, y))
  {
    hide Xor, Shift, ShiftBy;
    var a, b := x as bv32, y as bv32;
    WidenXor(x, y);
    XorRegroup(r, s, a, b);
    ShiftByXor(Xor(r, a), Xor(s, b), 8);
  }

  function XorBytes(a: seq<Byte>, b: seq<Byte>): (c: seq<Byte>)
    requires |a| == |b|
    ensures |c| == |a| && forall i :: 0 <= i < |a| ==> c[i] == a[i] ^ b[i]
  {
    seq(|a|, i requires 0 <= i < |a| => a[i] ^ b[i])
  }

  lemma {:induction false} RunXor(r: bv32, a: seq<Byte>, s: bv32, b: seq<Byte>)
    requires |a| == |b|
    ensures Run(Xor(r, s), XorBytes(a, b)) == Xor(Run(r, a), Run(s, b))
    decreases |a|
  {
    hide Xor, StepByte;
    if a == [] {
    } else {
      var n := |a| - 1;
      RunXor(r, a[..n], s, b[..n]);
      assert XorBytes(a, b)[..n] == XorBytes(a[..n], b[..n]);
      StepByteXor(Run(r, a[..n]), a[n], Run(s, b[..n]), b[n]);
    }
  }

  lemma AffineXor(x: bv32, y: bv32, z: bv32)
    ensures Xor(Xor(Xor(x, ALL_ONES), Xor(y, ALL_ONES)), Xor(z, ALL_ONES)) == Xor(Xor(Xor(x, y), z), ALL_ONES)
    ensures Xor(Xor(ALL_ONES, ALL_ONES), ALL_ONES) == ALL_ONES
  {
  }

  /** The CRC is affine over GF(2). */
  lemma CrcAffine(a: seq<Byte>, b: seq<Byte>, c: seq<Byte>)
    requires |a| == |b| == |c|
    ensures Xor(Xor(Crc32(a), Crc32(b)), Crc32(c)) == Crc32(XorBytes(XorBytes(a, b), c))
  {
    hide Xor, Run;
    RunXor(ALL_ONES, a, ALL_ONES, b);
    RunXor(Xor(ALL_ONES, ALL_ONES), XorBytes(a, b), ALL_ONES, c);
    AffineXor(Run(ALL_ONES, a), Run(ALL_ONES, b), Run(ALL_ONES, c));
  }

  // ---- the register as a function of bits ----

  lemma {:induction false} RunBitsConcat(r: bv32, a: seq<bool>, b: seq<bool>)
    ensures RunBits(r, a + b) == RunBits(RunBits(r, a), b)
    decreases a
  {
    hide Step;
    if a == [] {
      assert a + b == b;
    } else {
      assert (a + b)[0] == a[0] && (a + b)[1..] == a[1..] + b;
      RunBitsConcat(Step(r, a[0]), a[1..], b);
    }
  }

  lemma SplitByte(b: Byte)
    ensures b as bv32 == Xor(BitValue(Low(b)), ((b >> 1) as bv32) << 1)
    ensures Shift(((b >> 1) as bv32) << 1) == (b >> 1) as bv32
  {
  }

  lemma PeelBit(r: bv32, b: Byte)
    ensures Shift(Xor(r, b as bv32)) == Xor(Step(r, Low(b)), (b >> 1) as bv32)
  {
    hide Xor, Shift, BitValue, Low;
    var rest := ((b >> 1) as bv32) << 1;
    SplitByte(b);
    XorAssociative(r, BitValue(Low(b)), rest);
    ShiftXor(Xor(r, BitValue(Low(b))), rest);
  }

  /** What is left of a byte after its n lowest bits. */
  function Rest(b: Byte, n: nat): Byte
    decreases n
  {
    if n == 0 then b else Rest(b >> 1, n - 1)
  }

  lemma RunBitsStep(r: bv32, b: bool, bits: seq<bool>)
    ensures RunBits(r, [b] + bits) == RunBits(Step(r, b), bits)
  {
    hide Step;
    assert ([b] + bits)[1..] == bits;
  }

  lemma {:induction false} PeelBits(r: bv32, b: Byte, n: nat)
    ensures ShiftBy(Xor(r, b as bv32), n) == Xor(RunBits(r, LowBits(b, n)), Rest(b, n) as bv32)
    decreases n
  {
    hide Xor, Shift, Step, Low;
    if n == 0 {
    } else {
      PeelBit(r, b);
      RunBitsStep(r, Low(b), LowBits(b >> 1, n - 1));
      hide RunBits;
      PeelBits(Step(r, Low(b)), b >> 1, n - 1);
    }
  }

  lemma NothingLeft(b: Byte)
    ensures Rest(b, 8) == 0
  {
    var c := b >> 1 >> 1;
    assert Rest(b, 8) == Rest(b >> 1, 7) == Rest(c, 6);
    var d := c >> 1 >> 1;
    assert Rest(c, 6) == Rest(c >> 1, 5) == Rest(d, 4);
    var e := d >> 1 >> 1;
    assert Rest(d, 4) == Rest(d >> 1, 3) == Rest(e, 2);
    assert Rest(e, 2) == Rest(e >> 1, 1) == e >> 1 >> 1;
  }

  /** A byte entered at once is the same as its eight bits entered one by one. */
  lemma StepByteIsBits(r: bv32, b: Byte)
    ensures StepByte(r, b) == RunBits(r, LowBits(b, 8))
  {
    hide Xor, ShiftBy, RunBits, LowBits, Rest;
    PeelBits(r, b, 8);
    NothingLeft(b);
    XorZero(RunBits(r, LowBits(b, 8)));
  }

  /** The byte-wise register is the bit-wise register fed with the message's bits. */
  lemma {:induction false} RunIsRunBits(r: bv32, s: seq<Byte>)
    ensures Run(r, s) == RunBits(r, MessageBits(s))
    decreases |s|
  {
    hide StepByte, LowBits, Step;
    if s == [] {
    } else {
      var n := |s| - 1;
      RunIsRunBits(r, s[..n]);
      StepByteIsBits(Run(r, s[..n]), s[n]);
      RunBitsConcat(r, MessageBits(s[..n]), LowBits(s[n], 8));
    }
  }

  lemma StepInjective(r: bv32, s: bv32, b: bool)
    requires Step(r, b) == Step(s, b)
    ensures r == s
  {
    hide Xor, Shift, BitValue;
    ShiftInjective(Xor(r, BitValue(b)), Xor(s, BitValue(b)));
    XorCancel(r, s, BitValue(b));
  }

  /** For fixed message bits the register update is injective. */
  lemma {:induction false} RunBitsInjective(r: bv32, s: bv32, bits: seq<bool>)
    requires RunBits(r, bits) == RunBits(s, bits)
    ensures r == s
    decreases bits
  {
    hide Step;
    if bits == [] {
    } else {
      RunBitsInjective(Step(r, bits[0]), Step(s, bits[0]), bits[1..]);
      StepInjective(r, s, bits[0]);
    }
  }

  // ---- bursts: at most 32 consecutive message bits ----

  /** A word with one more bit below. */
  function Append(p: bv32, b: bool): bv32 {
    (p << 1) | BitValue(b)
  }

  /** A burst of at most 32 bits, packed with its first bit lowest. */
  function Pack(bits: seq<bool>): bv32
    requires |bits| <= 32
  {
    if bits == [] then 0 else Append(Pack(bits[1..]), bits[0])
  }

  /** The mask of the n lowest bits. */
  function Ones(n: nat): bv32
    requires n <= 32
  {
    if n == 0 then 0 else Append(Ones(n - 1), true)
  }

  predicate Within(p: bv32, mask: bv32) {
    p & !mask == 0
  }

  lemma ShiftedWithin(p: bv32, mask: bv32)
    requires Within(p, mask)
    ensures Within((p << 1) | 0, (mask << 1) | 1) && Within((p << 1) | 1, (mask << 1) | 1)
  {
  }

  lemma AppendIs(p: bv32, b: bool)
    ensures Append(p, b) == if b then (p << 1) | 1 else (p << 1) | 0
  {
  }

  lemma WithinGrow(p: bv32, mask: bv32, b: bool)
    requires Within(p, mask)
    ensures Within(Append(p, b), Append(mask, true))
  {
    hide Append, Within;
    AppendIs(p, b);
    AppendIs(mask, true);
    ShiftedWithin(p, mask);
  }

  lemma NothingWithin(mask: bv32)
    ensures Within(0, mask)
  {
  }

  lemma {:induction false} OnesMonotone(m: nat, n: nat)
    requires m <= n <= 32
    ensures Within(Ones(m), Ones(n))
  {
    hide Within, Append;
    if m == 0 {
      NothingWithin(Ones(n));
    } else {
      OnesMonotone(m - 1, n - 1);
      WithinGrow(Ones(m - 1), Ones(n - 1), true);
    }
  }

  lemma Ones31()
    ensures Ones(31) == 0x7FFF_FFFF
  {
    assert Ones(8) == 0xFF;
    assert Ones(16) == 0xFFFF;
    assert Ones(24) == 0xFF_FFFF;
  }

  lemma {:induction false} PackWithin(bits: seq<bool>)
    requires |bits| <= 32
    ensures Within(Pack(bits), Ones(|bits|))
  {
    hide Within, Append;
    if bits == [] {
      NothingWithin(0);
    } else {
      PackWithin(bits[1..]);
      WithinGrow(Pack(bits[1..]), Ones(|bits| - 1), bits[0]);
    }
  }

  /** The top bit is clear, so a left shift loses nothing. */
  predicate Shiftable(p: bv32) {
    p & 0x8000_0000 == 0
  }

  lemma WithinShiftable(p: bv32, mask: bv32)
    requires Within(p, mask) && Within(mask, 0x7FFF_FFFF)
    ensures Shiftable(p)
  {
  }

  lemma PackShiftable(bits: seq<bool>)
    requires |bits| <= 31
    ensures Shiftable(Pack(bits))
  {
    hide *;
    PackWithin(bits);
    OnesMonotone(|bits|, 31);
    Ones31();
    WithinShiftable(Pack(bits), Ones(|bits|));
  }

  lemma Unappend(p: bv32, b: bool)
    requires Shiftable(p)
    ensures Append(p, b) >> 1 == p
    ensures (Append(p, b) & 1 == 1) == b
  {
  }

  lemma AppendInjective(p: bv32, b: bool, q: bv32, c: bool)
    requires Shiftable(p) && Shiftable(q) && Append(p, b) == Append(q, c)
    ensures p == q && b == c
  {
    hide *;
    Unappend(p, b);
    Unappend(q, c);
  }

  lemma AppendIsXor(p: bv32, b: bool)
    ensures Append(p, b) == Xor(BitValue(b), p << 1)
  {
    if b {
      assert (p << 1) | 1 == 1 ^ (p << 1);
    } else {
      assert (p << 1) | 0 == 0 ^ (p << 1);
    }
  }

  lemma ShiftBack(p: bv32)
    requires Shiftable(p)
    ensures Shift(p << 1) == p
  {
  }

  lemma {:induction false} PackInjective(a: seq<bool>, b: seq<bool>)
    requires |a| == |b| <= 32
    requires Pack(a) == Pack(b)
    ensures a == b
  {
    hide Shiftable, Append;
    if a == [] {
    } else {
      PackShiftable(a[1..]);
      PackShiftable(b[1..]);
      AppendInjective(Pack(a[1..]), a[0], Pack(b[1..]), b[0]);
      PackInjective(a[1..], b[1..]);
      assert a == [a[0]] + a[1..] && b == [b[0]] + b[1..];
    }
  }

  function Zeros(n: nat): (z: seq<bool>)
    ensures |z| == n && forall i :: 0 <= i < n ==> !z[i]
  {
    seq(n, _ => false)
  }

  lemma PeelPacked(r: bv32, p: bv32, b: bool)
    requires Shiftable(p)
    ensures Shift(Xor(r, Append(p, b))) == Xor(Step(r, b), p)
  {
    hide Xor, Shift, Append, BitValue, Shiftable;
    AppendIsXor(p, b);
    ShiftBack(p);
    XorAssociative(r, BitValue(b), p << 1);
    ShiftXor(Xor(r, BitValue(b)), p << 1);
  }

  lemma StepZero(r: bv32)
    ensures Step(r, false) == Shift(r)
  {
    hide Xor, Shift;
    XorZero(r);
  }

  /** A burst can be added to the register in advance, followed by zero bits. */
  lemma {:induction false} BurstInAdvance(r: bv32, bits: seq<bool>)
    requires |bits| <= 32
    ensures RunBits(r, bits) == RunBits(Xor(r, Pack(bits)), Zeros(|bits|))
    decreases bits
  {
    hide Xor, Shift, Step, Append, Shiftable;
    if bits == [] {
      XorZero(r);
    } else {
      var n := |bits|;
      PackShiftable(bits[1..]);
      PeelPacked(r, Pack(bits[1..]), bits[0]);
      BurstInAdvance(Step(r, bits[0]), bits[1..]);
      assert Zeros(n)[1..] == Zeros(n - 1);
      StepZero(Xor(r, Pack(bits)));
    }
  }

  /** Two different bursts entering the same register leave it in different states. */
  lemma BurstSeparates(r: bv32, a: seq<bool>, b: seq<bool>)
    requires |a| == |b| <= 32
    requires RunBits(r, a) == RunBits(r, b)
    ensures a == b
  {
    hide Xor, RunBits, Pack;
    BurstInAdvance(r, a);
    BurstInAdvance(r, b);
    RunBitsInjective(Xor(r, Pack(a)), Xor(r, Pack(b)), Zeros(|a|));
    XorCommutes(Pack(a), r);
    XorCommutes(Pack(b), r);
    XorCancel(Pack(a), Pack(b), r);
    PackInjective(a, b);
  }

  /**
   * Error detection: two bit strings of the same length that differ only inside a
   * window of at most 32 bits leave the register in different states.
   */
  lemma BurstDetectedBits(r: bv32, before: seq<bool>, a: seq<bool>, b: seq<bool>, after: seq<bool>)
    requires |a| == |b| <= 32 && a != b
    ensures RunBits(r, before + a + after) != RunBits(r, before + b + after)
  {
    hide RunBits;
    var s := RunBits(r, before);
    RunBitsConcat(r, before + a, after);
    RunBitsConcat(r, before, a);
    RunBitsConcat(r, before + b, after);
    RunBitsConcat(r, before, b);
    if RunBits(r, before + a + after) == RunBits(r, before + b + after) {
      RunBitsInjective(RunBits(s, a), RunBits(s, b), after);
      BurstSeparates(s, a, b);
    }
  }

  // ---- back to bytes ----

  lemma {:induction false} MessageBitsConcat(a: seq<Byte>, b: seq<Byte>)
    ensures MessageBits(a + b) == MessageBits(a) + MessageBits(b)
    decreases |b|
  {
    hide LowBits;
    if b == [] {
      assert a + b == a;
    } else {
      var n := |b| - 1;
      assert (a + b)[..|a + b| - 1] == a + b[..n];
      MessageBitsConcat(a, b[..n]);
    }
  }

  lemma {:induction false} MessageBitsLength(a: seq<Byte>)
    ensures |MessageBits(a)| == 8 * |a|
    decreases |a|
  {
    if a == [] {
    } else {
      MessageBitsLength(a[..|a| - 1]);
    }
  }

  lemma LowBitStep(a: Byte, b: Byte)
    requires Low(a) == Low(b) && a >> 1 == b >> 1
    ensures a == b
  {
  }

  lemma {:induction false} LowBitsInjective(a: Byte, b: Byte, n: nat)
    requires LowBits(a, n) == LowBits(b, n) && Rest(a, n) == Rest(b, n)
    ensures a == b
    decreases n
  {
    hide Low;
    if n == 0 {
    } else {
      assert LowBits(a, n)[0] == LowBits(b, n)[0];
      assert LowBits(a, n)[1..] == LowBits(a >> 1, n - 1);
      assert LowBits(b, n)[1..] == LowBits(b >> 1, n - 1);
      LowBitsInjective(a >> 1, b >> 1, n - 1);
      LowBitStep(a, b);
    }
  }

  lemma {:induction false} MessageBitsInjective(a: seq<Byte>, b: seq<Byte>)
    requires |a| == |b| && MessageBits(a) == MessageBits(b)
    ensures a == b
    decreases |a|
  {
    hide LowBits, Rest;
    if a == [] {
    } else {
      var n := |a| - 1;
      var p, q := MessageBits(a[..n]), MessageBits(b[..n]);
      MessageBitsLength(a[..n]);
      MessageBitsLength(b[..n]);
      assert p == MessageBits(a)[..8 * n] && q == MessageBits(b)[..8 * n];
      assert LowBits(a[n], 8) == MessageBits(a)[8 * n..] && LowBits(b[n], 8) == MessageBits(b)[8 * n..];
      MessageBitsInjective(a[..n], b[..n]);
      NothingLeft(a[n]);
      NothingLeft(b[n]);
      LowBitsInjective(a[n], b[n], 8);
      assert a == a[..n] + [a[n]] && b == b[..n] + [b[n]];
    }
  }

  /** Byte strings that differ only within four consecutive bytes never share a CRC. */
  lemma BurstDetected(before: seq<Byte>, a: seq<Byte>, b: seq<Byte>, after: seq<Byte>)
    requires |a| == |b| <= 4 && a != b
    ensures Crc32(before + a + after) != Crc32(before + b + after)
  {
    hide Xor, Run, RunBits, MessageBits;
    MessageBitsLength(a);
    MessageBitsLength(b);
    if MessageBits(a) == MessageBits(b) {
      MessageBitsInjective(a, b);
    }
    BurstDetectedBits(ALL_ONES, MessageBits(before), MessageBits(a), MessageBits(b), MessageBits(after));
    MessageBitsConcat(before + a, after);
    MessageBitsConcat(before, a);
    MessageBitsConcat(before + b, after);
    MessageBitsConcat(before, b);
    var x, y := Run(ALL_ONES, before + a + after), Run(ALL_ONES, before + b + after);
    RunIsRunBits(ALL_ONES, before + a + after);
    RunIsRunBits(ALL_ONES, before + b + after);
    if Xor(x, ALL_ONES) == Xor(y, ALL_ONES) {
      XorCancel(x, y, ALL_ONES);
    }
  }

  /** Changing one byte changes the CRC. */
  lemma SingleByteDetected(s: seq<Byte>, i: nat, b: Byte)
    requires i < |s| && b != s[i]
    ensures Crc32(s[i := b]) != Crc32(s)
  {
    hide Crc32;
    assert s == s[..i] + [s[i]] + s[i + 1..];
    assert s[i := b] == s[..i] + [b] + s[i + 1..];
    assert [b][0] != [s[i]][0];
    BurstDetected(s[..i], [s[i]], [b], s[i + 1..]);
  }
}
