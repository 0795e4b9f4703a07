/**
 * Command completion and scatter lists of the UFS host controller driver
 * (Silicon/Samsung/Exynos9820Pkg/Library/ExynosUfsLib/ufs.c, lines 309-326 and 552-725).
 * Register reads are arbitrary inputs; bit masks are named, their values do not matter.
 */
module UfsCommand {
  import opened Division
  import opened UfsAlloc

  // ---- completion ----

  /** The bits of one read of the interrupt status, and of the doorbell behind it. */
  datatype Reading = Reading(uicCommandCompl: bool, uicPowerMode: bool, uicError: bool, transferReqCompl: bool, fatal: bool,
                             doorbell: bool)

  /** UIC commands that complete in their own way, or read an attribute back. */
  datatype Command = LinkStartup | GearChange | DmeGet | DmePeerGet | OtherCommand

  /** What is waited for: a UIC command or a transfer request. */
  datatype Wait = Uic(command: Command) | Utp

  datatype Verdict = InProgress | NoError | Error | Timeout

  function UicVerdict(c: Command, r: Reading): Verdict {
    if r.uicError && c != LinkStartup then Error
    else if r.uicCommandCompl && (c != GearChange || r.uicPowerMode) then NoError
    else InProgress
  }

  function UtpVerdict(r: Reading): Verdict {
    if r.transferReqCompl && !r.doorbell then NoError else InProgress
  }

  /** What one read decides, leaving the time out of account. */
  function Decision(w: Wait, r: Reading): (v: Verdict)
    ensures v != Timeout
  {
    if r.fatal then Error else if w.Uic? then UicVerdict(w.command, r) else UtpVerdict(r)
  }

  /** The result of polling from read i on with t retries left, and the number of reads made. */
  function Polled(w: Wait, device: nat -> Reading, i: nat, t: nat): (Verdict, nat)
    decreases t
  {
    var v := Decision(w, device(i));
    if v != InProgress then (v, i + 1)
    else if t == 0 then (Timeout, i + 1)
    else Polled(w, device, i + 1, t - 1)
  }

  /**
   * For every behaviour of the device: at most timeout + 1 reads, then success or error as
   * the last read says and all reads before it left open, or timeout if all were open.
   */
  lemma {:induction false} PollingEnds(w: Wait, device: nat -> Reading, i: nat, t: nat)
    ensures var (v, n) := Polled(w, device, i, t);
      && i < n <= i + t + 1 && v != InProgress
      && (forall k :: i <= k < n - 1 ==> Decision(w, device(k)) == InProgress)
      && (v == Timeout <==> forall k :: i <= k <= i + t ==> Decision(w, device(k)) == InProgress)
      && (v == Timeout ==> n == i + t + 1)
      && (v != Timeout ==> Decision(w, device(n - 1)) == v)
    decreases t
  {
    hide Decision;
    if Decision(w, device(i)) == InProgress && t > 0 {
      PollingEnds(w, device, i + 1, t - 1);
    }
  }

  // ---- scatter lists ----

  const TWO64 := 0x1_0000_0000_0000_0000

  /** A scatter list entry; size is the number of bytes less one. */
  datatype Prd = Prd(baseAddr: U32, upperAddr: U32, size: U32)

  function AddressOf(p: Prd): nat {
    p.baseAddr + TWO32 * p.upperAddr
  }

  /** The number of entries; the rounding sum is a 32-bit one. */
  function Segments(len: U32, block: U32): U32
    requires block > 0
  {
    Quotient(Wrap32(len + block - 1), block)
  }

  function Wrap64(x: int): nat {
    x % TWO64
  }

  lemma Wrap64Sum(x: int, y: int)
    ensures Wrap64(Wrap64(x) + y) == Wrap64(x + y)
  {
  }

  /** Entry i of the list for the buffer at buf. */
  function Entry(buf: nat, i: nat, block: U32): Prd
    requires block > 0
  {
    var a := Wrap64(buf + i * block);
    Prd(a % TWO32, a / TWO32, block - 1)
  }

  /** The entry holds the 64-bit address of its block, so entries are contiguous. */
  lemma EntryAddress(buf: nat, i: nat, block: U32)
    requires block > 0
    ensures AddressOf(Entry(buf, i, block)) == Wrap64(buf + i * block)
    ensures AddressOf(Entry(buf, i + 1, block)) == Wrap64(AddressOf(Entry(buf, i, block)) + Entry(buf, i, block).size + 1)
  {
    hide Entry, Wrap64;
    assert (i + 1) * block == i * block + block;
    EntryIs(buf, i, block);
    EntryIs(buf, i + 1, block);
    Wrap64Sum(buf + i * block, block);
  }

  lemma EntryIs(buf: nat, i: nat, block: U32)
    requires block > 0
    ensures AddressOf(Entry(buf, i, block)) == Wrap64(buf + i * block) && Entry(buf, i, block).size == block - 1
  {
    var a := Wrap64(buf + i * block);
    assert a == a % TWO32 + TWO32 * (a / TWO32);
  }

  /** The list covers the buffer, with less than a block to spare, exactly if the rounding sum fits 32 bits. */
  lemma SegmentsCover(len: U32, block: U32)
    requires block > 0 && len > 0
    ensures var n := Segments(len, block);
      && (len + block - 1 < TWO32 <==> n * block >= len)
      && (len + block - 1 < TWO32 ==> n * block - len < block)
      && n * block < TWO32
  {
    var sum := Wrap32(len + block - 1);
    SplitQuotient(sum, block);
    assert Segments(len, block) * block == sum - sum % block;
  }
}
