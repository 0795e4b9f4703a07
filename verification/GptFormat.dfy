/**
 * Byte-level layout of a GUID partition table (section 5.3 of the UEFI Specification)
 * and the byte codecs of GPLDrivers/Include/Library/BootSlotLib/PartitionTableUpdate.h.
 */
module GptFormat {
  import opened Crc32Spec

  const HEADER_SIZE := 92
  const HEADER_SIZE_OFFSET := 12
  const HEADER_CRC_OFFSET := 16
  const ENTRIES_LBA_OFFSET := 72
  const ENTRY_COUNT_OFFSET := 80
  const ENTRY_SIZE_OFFSET := 84
  const ENTRIES_CRC_OFFSET := 88
  const ZERO4: seq<Byte> := [0, 0, 0, 0]

  /** s with the bytes b written at offset off. */
  function Put(s: seq<Byte>, off: nat, b: seq<Byte>): (r: seq<Byte>)
    requires off + |b| <= |s|
    ensures |r| == |s|
    ensures forall i :: 0 <= i < |s| ==> r[i] == if off <= i < off + |b| then b[i - off] else s[i]
  {
    s[..off] + b + s[off + |b|..]
  }

  lemma PutReads(s: seq<Byte>, off: nat, b: seq<Byte>)
    requires off + |b| <= |s|
    ensures Put(s, off, b)[off..off + |b|] == b
  {
  }

  lemma PutKeeps(s: seq<Byte>, off: nat, b: seq<Byte>, from: nat, to: nat)
    requires off + |b| <= |s| && from <= to <= |s| && (to <= off || off + |b| <= from)
    ensures Put(s, off, b)[from..to] == s[from..to]
  {
  }

  /** A slice of a slice. */
  lemma SliceOfSlice(s: seq<Byte>, base: nat, end: nat, from: nat, to: nat)
    requires base <= end <= |s| && from <= to <= end - base
    ensures s[base..end][from..to] == s[base + from..base + to]
  {
    var a, b := s[base..end][from..to], s[base + from..base + to];
    assert |a| == |b| && forall i :: 0 <= i < |a| ==> a[i] == b[i];
  }

  /** Writing inside a slice. */
  lemma PutInSlice(s: seq<Byte>, off: nat, b: seq<Byte>, base: nat, end: nat)
    requires base <= off && off + |b| <= end <= |s|
    ensures Put(s, off, b)[base..end] == Put(s[base..end], off - base, b)
  {
  }

  /** Only the last of two writes to the same place shows. */
  lemma PutTwice(s: seq<Byte>, off: nat, b: seq<Byte>, c: seq<Byte>)
    requires off + |b| <= |s| && |b| == |c|
    ensures Put(Put(s, off, b), off, c) == Put(s, off, c)
  {
  }

  /** C's (unsigned char)x. */
  function LowByte(x: bv32): Byte {
    (x & 0xff) as Byte
  }

  /** PUT_LONG: a 32-bit word as four bytes, lowest first. */
  function Le32(x: bv32): (b: seq<Byte>)
    ensures |b| == 4
  {
    [LowByte(x), LowByte(x >> 8), LowByte(x >> 16), LowByte(x >> 24)]
  }

  /** GET_LWORD_FROM_BYTE: four bytes, lowest first, as a 32-bit word. */
  function GetLe32(s: seq<Byte>, off: nat): bv32
    requires off + 4 <= |s|
  {
    (s[off] as bv32) | ((s[off + 1] as bv32) << 8) | ((s[off + 2] as bv32) << 16) | ((s[off + 3] as bv32) << 24)
  }

  /** PUT_LONG_LONG. */
  function Le64(x: bv64): (b: seq<Byte>)
    ensures |b| == 8
  {
    [(x & 0xff) as Byte, ((x >> 8) & 0xff) as Byte, ((x >> 16) & 0xff) as Byte, ((x >> 24) & 0xff) as Byte,
     ((x >> 32) & 0xff) as Byte, ((x >> 40) & 0xff) as Byte, ((x >> 48) & 0xff) as Byte, ((x >> 56) & 0xff) as Byte]
  }

  /** GET_LLWORD_FROM_BYTE. */
  function GetLe64(s: seq<Byte>, off: nat): bv64
    requires off + 8 <= |s|
  {
    (s[off] as bv64) | ((s[off + 1] as bv64) << 8) | ((s[off + 2] as bv64) << 16) | ((s[off + 3] as bv64) << 24)
    | ((s[off + 4] as bv64) << 32) | ((s[off + 5] as bv64) << 40) | ((s[off + 6] as bv64) << 48)
    | ((s[off + 7] as bv64) << 56)
  }

  lemma Join32(x: bv32)
    ensures (((x & 0xff) as Byte) as bv32) | ((((x >> 8) & 0xff) as Byte) as bv32 << 8)
            | ((((x >> 16) & 0xff) as Byte) as bv32 << 16) | ((((x >> 24) & 0xff) as Byte) as bv32 << 24) == x
  {
  }

  lemma Join64(x: bv64)
    ensures (((x & 0xff) as Byte) as bv64) | ((((x >> 8) & 0xff) as Byte) as bv64 << 8)
            | ((((x >> 16) & 0xff) as Byte) as bv64 << 16) | ((((x >> 24) & 0xff) as Byte) as bv64 << 24)
            | ((((x >> 32) & 0xff) as Byte) as bv64 << 32) | ((((x >> 40) & 0xff) as Byte) as bv64 << 40)
            | ((((x >> 48) & 0xff) as Byte) as bv64 << 48) | ((((x >> 56) & 0xff) as Byte) as bv64 << 56) == x
  {
  }

  /** Reading back a stored word. */
  lemma StoredLe32(s: seq<Byte>, off: nat, x: bv32)
    requires off + 4 <= |s| && s[off..off + 4] == Le32(x)
    ensures GetLe32(s, off) == x
  {
    var b := Le32(x);
    assert s[off] == b[0] && s[off + 1] == b[1] && s[off + 2] == b[2] && s[off + 3] == b[3] by {
      assert s[off..off + 4][0] == b[0] && s[off..off + 4][1] == b[1];
      assert s[off..off + 4][2] == b[2] && s[off..off + 4][3] == b[3];
    }
    Join32(x);
  }

  lemma StoredLe64(s: seq<Byte>, off: nat, x: bv64)
    requires off + 8 <= |s| && s[off..off + 8] == Le64(x)
    ensures GetLe64(s, off) == x
  {
    var b, t := Le64(x), s[off..off + 8];
    assert t[0] == b[0] && t[1] == b[1] && t[2] == b[2] && t[3] == b[3];
    assert t[4] == b[4] && t[5] == b[5] && t[6] == b[6] && t[7] == b[7];
    Join64(x);
  }

  /** A field depends only on its own bytes. */
  lemma SameField32(s: seq<Byte>, t: seq<Byte>, off: nat)
    requires off + 4 <= |s| && off + 4 <= |t|
    requires forall i :: off <= i < off + 4 ==> s[i] == t[i]
    ensures GetLe32(s, off) == GetLe32(t, off)
  {
  }

  lemma SameField64(s: seq<Byte>, t: seq<Byte>, off: nat)
    requires off + 8 <= |s| && off + 8 <= |t|
    requires forall i :: off <= i < off + 8 ==> s[i] == t[i]
    ensures GetLe64(s, off) == GetLe64(t, off)
  {
  }

  /** The CRC of a header of the given size, its own CRC field taken as zero. */
  function HeaderCrc(header: seq<Byte>, size: nat): bv32
    requires HEADER_SIZE <= size <= |header|
  {
    Crc32(Put(header[..size], HEADER_CRC_OFFSET, ZERO4))
  }

  /** The header's checksum field validates (section 5.3.2 of the UEFI Specification). */
  ghost predicate HeaderValid(header: seq<Byte>) {
    && HEADER_SIZE <= |header|
    && var size := GetLe32(header, HEADER_SIZE_OFFSET) as nat;
       && HEADER_SIZE <= size <= |header|
       && GetLe32(header, HEADER_CRC_OFFSET) == HeaderCrc(header, size)
  }
}
