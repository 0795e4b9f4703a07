/**
 * CRC-32, the specification: the form given for Ethernet frames (section 3.2.9 of
 * IEEE 802.3) and used by GPT.  A 32-bit register, preset to ones, consumes the
 * message least significant bit first and is complemented at the end.
 */
module Crc32Spec {
  type Byte = bv8

  const LSB_POLYNOMIAL: bv32 := 0xEDB8_8320
  const ALL_ONES: bv32 := 0xFFFF_FFFF

  /** Addition over GF(2), position by position. */
  function Xor(a: bv32, b: bv32): bv32 {
    a ^ b
  }

  /** One shift of the register; the message bit has already been added to its lowest bit. */
  function Shift(r: bv32): bv32 {
    if r & 1 == 1 then (r >> 1) ^ LSB_POLYNOMIAL else r >> 1
  }

  function ShiftBy(r: bv32, n: nat): bv32
    decreases n
  {
    if n == 0 then r else ShiftBy(Shift(r), n - 1)
  }

  function BitValue(b: bool): bv32 {
    if b then 1 else 0
  }

  /** The register after consuming one message bit. */
  function Step(r: bv32, b: bool): bv32 {
    Shift(Xor(r, BitValue(b)))
  }

  /** The register after consuming a message given as bits, first bit first. */
  function RunBits(r: bv32, bits: seq<bool>): bv32
    decreases bits
  {
    if bits == [] then r else RunBits(Step(r, bits[0]), bits[1..])
  }

  /** The register after consuming one byte. */
  function StepByte(r: bv32, b: Byte): bv32 {
    ShiftBy(Xor(r, b as bv32), 8)
  }

  /** The register after consuming a message given as bytes. */
  function Run(r: bv32, s: seq<Byte>): bv32 {
    if s == [] then r else StepByte(Run(r, s[..|s| - 1]), s[|s| - 1])
  }

  /** The CRC-32 of a byte string. */
  function Crc32(s: seq<Byte>): bv32 {
    Xor(Run(ALL_ONES, s), ALL_ONES)
  }

  function Low(b: Byte): bool {
    b & 1 == 1
  }

  /** The n lowest bits of a byte, lowest first. */
  function LowBits(b: Byte, n: nat): (bits: seq<bool>)
    ensures |bits| == n
  {
    if n == 0 then [] else [Low(b)] + LowBits(b >> 1, n - 1)
  }

  /** The bits of a message in the order they enter the register. */
  function MessageBits(s: seq<Byte>): seq<bool> {
    if s == [] then [] else MessageBits(s[..|s| - 1]) + LowBits(s[|s| - 1], 8)
  }
}

