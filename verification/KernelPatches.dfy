/**
 * The instruction patchers built on the pattern scan
 * (Platform/RenegadePkg/Drivers/KernelErrataPatcher/KernelErrataPatcher.c, lines 33-155, and
 * CopyMemory in Utilities.c).  Memory is an array of bytes indexed by address.
 */
module KernelPatches {
  import opened PatternScan

  // ---- patterns and instructions ----

  /** 28 10 38 D5, a read of ACTLR_EL1, and what replaces it. */
  const READ_ACTLR: seq<Token> := [Value(0x28), Value(0x10), Value(0x38), Value(0xD5)]
  const MOV_X8_ZERO: seq<Byte> := [0x08, 0x00, 0x80, 0xD2]

  /** 29 10 18 D5, a write of ACTLR_EL1. */
  const WRITE_ACTLR: seq<Token> := [Value(0x29), Value(0x10), Value(0x18), Value(0xD5)]
  const NOP: seq<Byte> := [0x1F, 0x20, 0x03, 0xD5]

  /** 04 00 80 D2 03 00 80 D2 C0 07 80 52, the bug check call in KiCacheInitialize. */
  const CACHE_CHECK: seq<Token> := [
    Value(0x04), Value(0x00), Value(0x80), Value(0xD2), Value(0x03), Value(0x00), Value(0x80), Value(0xD2),
    Value(0xC0), Value(0x07), Value(0x80), Value(0x52)]
  const NOPS: seq<Byte> := [
    0x1F, 0x20, 0x03, 0xD5, 0x1F, 0x20, 0x03, 0xD5, 0x1F, 0x20, 0x03, 0xD5, 0x1F, 0x20, 0x03, 0xD5]

  /** D5 02 00 18 03 00 80 D2 02 00 80 D2 01 00 80 D2, eight instructions behind PsciMemProtect. */
  const PSCI: seq<Token> := [
    Value(0xD5), Value(0x02), Value(0x00), Value(0x18), Value(0x03), Value(0x00), Value(0x80), Value(0xD2),
    Value(0x02), Value(0x00), Value(0x80), Value(0xD2), Value(0x01), Value(0x00), Value(0x80), Value(0xD2)]
  const RET: seq<Byte> := [0xC0, 0x03, 0x5F, 0xD6]
  const PSCI_OFFSET := 32

  /** The scan for a pattern of plain bytes, from its text. */
  method FindBytes(mem: array<Byte>, base: nat, size: nat, tokens: seq<Token>) returns (r: nat)
    requires AllValues(tokens) && tokens != [] && base + size <= mem.Length
    ensures r == Find(mem[..], base, size, tokens)
  {
    TextSpells([], tokens);
    assert [] + TextOf(tokens) == TextOf(tokens);
    r := FindPattern(mem, base, size, TextOf(tokens), tokens);
  }

  /** Memory reaches as far as a result and the instruction at it can lie. */
  predicate RangeOk(memSize: nat, base: nat, size: nat) {
    base + size <= memSize && (base == 0 ==> size < memSize)
  }

  // ---- overwriting ----

  function Overwritten(mem: seq<Byte>, at: nat, code: seq<Byte>): (r: seq<Byte>)
    requires at + |code| <= |mem|
    ensures |r| == |mem|
    ensures forall i :: 0 <= i < |mem| ==> r[i] == if at <= i < at + |code| then code[i - at] else mem[i]
  {
    mem[..at] + code + mem[at + |code|..]
  }

  method CopyMemory(mem: array<Byte>, at: nat, code: seq<Byte>)
    requires at + |code| <= mem.Length
    modifies mem
    ensures mem[..] == Overwritten(old(mem[..]), at, code)
  {
    for i := 0 to |code|
      invariant forall k :: 0 <= k < mem.Length ==> mem[k] == if at <= k < at + i then code[k - at] else old(mem[k])
    {
      mem[at + i] := code[i];
    }
  }

  // ---- the read patcher ----

  const MAX_READS := 3

  /** The windows that the read patcher overwrites, in order, when done have been overwritten before. */
  function ReadWindows(mem: seq<Byte>, base: nat, size: nat, firmware: bool, done: nat): seq<nat>
    requires RangeOk(|mem|, base, size) && done < MAX_READS
    decreases MAX_READS - done
  {
    var p := Find(mem, base, size, READ_ACTLR);
    if p == 0 then []
    else
      FindIsInside(mem, base, size, READ_ACTLR);
      if firmware || done + 1 == MAX_READS then [p]
      else [p] + ReadWindows(Overwritten(mem, p, MOV_X8_ZERO), base, size, firmware, done + 1)
  }

  /** The windows lie in memory. */
  predicate WindowsFit(windows: seq<nat>, size: nat) {
    forall k :: 0 <= k < |windows| ==> windows[k] + 4 <= size
  }

  /** Memory with each window overwritten. */
  function AllOverwritten(mem: seq<Byte>, windows: seq<nat>, code: seq<Byte>): (r: seq<Byte>)
    requires forall k :: 0 <= k < |windows| ==> windows[k] + |code| <= |mem|
    ensures |r| == |mem|
    decreases |windows|
  {
    if windows == [] then mem
    else AllOverwritten(Overwritten(mem, windows[0], code), windows[1..], code)
  }

  ghost predicate InWindow(windows: seq<nat>, i: int) {
    exists k :: 0 <= k < |windows| && windows[k] <= i < windows[k] + 4
  }

  /** The replacement shares no byte with the pattern, so an occurrence found later has not been touched. */
  lemma OccurrenceUntouched(mem: seq<Byte>, at: nat, p: nat)
    requires at + 4 <= |mem| && Occurs(Overwritten(mem, at, MOV_X8_ZERO), READ_ACTLR, p, 4)
    ensures Occurs(mem, READ_ACTLR, p, 4) && (p + 4 <= at || at + 4 <= p)
  {
    var m := Overwritten(mem, at, MOV_X8_ZERO);
    assert Fits(READ_ACTLR[0], m[p + 0]) && Fits(READ_ACTLR[1], m[p + 1]) && Fits(READ_ACTLR[2], m[p + 2]) && Fits(READ_ACTLR[3], m[p + 3]);
    assert m[at] == 0x08 && m[at + 1] == 0x00 && m[at + 2] == 0x80 && m[at + 3] == 0xD2;
  }

  /**
   * The read patcher overwrites at most three windows, in firmware at most one.  They are
   * disjoint, lie in the range and all held the pattern before; memory outside them stays.
   */
  lemma {:induction false} ReadsPatched(mem: seq<Byte>, base: nat, size: nat, firmware: bool, done: nat)
    requires 0 < base && base + size <= |mem| && done < MAX_READS
    ensures var w := ReadWindows(mem, base, size, firmware, done);
      && |w| <= (if firmware then 1 else MAX_READS - done)
      && (forall k :: 0 <= k < |w| ==> base <= w[k] && w[k] + 4 <= base + size && Occurs(mem, READ_ACTLR, w[k], 4))
      && (forall j, k :: 0 <= j < k < |w| ==> w[j] + 4 <= w[k] || w[k] + 4 <= w[j])
    decreases MAX_READS - done
  {
    hide Occurs, Find;
    var p := Find(mem, base, size, READ_ACTLR);
    if p != 0 {
      FindIsMatch(mem, base, size, READ_ACTLR);
      if !(firmware || done + 1 == MAX_READS) {
        var m := Overwritten(mem, p, MOV_X8_ZERO);
        ReadsPatched(m, base, size, firmware, done + 1);
        var rest := ReadWindows(m, base, size, firmware, done + 1);
        forall k | 0 <= k < |rest|
          ensures Occurs(mem, READ_ACTLR, rest[k], 4) && (rest[k] + 4 <= p || p + 4 <= rest[k])
        {
          OccurrenceUntouched(mem, p, rest[k]);
        }
      }
    }
  }

  /** Unless it stops at the third window or in firmware, the patcher leaves nothing that the scan would find. */
  lemma {:induction false} ReadsComplete(mem: seq<Byte>, base: nat, size: nat, done: nat)
    requires 0 < base && base + size <= |mem| && done < MAX_READS
    ensures var w := ReadWindows(mem, base, size, false, done);
      && WindowsFit(w, |mem|)
      && (|w| < MAX_READS - done ==> Find(AllOverwritten(mem, w, MOV_X8_ZERO), base, size, READ_ACTLR) == 0)
    decreases MAX_READS - done
  {
    hide Occurs, Find;
    ReadsPatched(mem, base, size, false, done);
    var p := Find(mem, base, size, READ_ACTLR);
    if p != 0 {
      FindIsMatch(mem, base, size, READ_ACTLR);
      if done + 1 < MAX_READS {
        ReadsComplete(Overwritten(mem, p, MOV_X8_ZERO), base, size, done + 1);
      }
    }
  }

  // ---- what the read patcher leaves ----

  /** A byte is as it was or one of the code's. */
  lemma {:induction false} ByteAfter(mem: seq<Byte>, windows: seq<nat>, code: seq<Byte>, i: nat)
    requires i < |mem| && forall k :: 0 <= k < |windows| ==> windows[k] + |code| <= |mem|
    ensures AllOverwritten(mem, windows, code)[i] == mem[i] || AllOverwritten(mem, windows, code)[i] in code
    decreases |windows|
  {
    if windows != [] {
      ByteAfter(Overwritten(mem, windows[0], code), windows[1..], code, i);
    }
  }

  /** A pattern and code that share no byte. */
  predicate Apart(tokens: seq<Token>, code: seq<Byte>) {
    AllValues(tokens) && forall k :: 0 <= k < |tokens| ==> tokens[k].b !in code
  }

  lemma ReadsAreApart()
    ensures Apart(READ_ACTLR, MOV_X8_ZERO) && |MOV_X8_ZERO| == 4
  {
  }

  lemma FitWasThere(mem: seq<Byte>, windows: seq<nat>, code: seq<Byte>, t: Token, i: nat)
    requires i < |mem| && t.Value? && t.b !in code && forall k :: 0 <= k < |windows| ==> windows[k] + |code| <= |mem|
    requires Fits(t, AllOverwritten(mem, windows, code)[i])
    ensures Fits(t, mem[i])
  {
    hide AllOverwritten;
    ByteAfter(mem, windows, code, i);
  }

  /** Beginnings of such a pattern in patched memory were there before. */
  lemma WasThere(mem: seq<Byte>, windows: seq<nat>, code: seq<Byte>, tokens: seq<Token>, p: nat, n: nat)
    requires Apart(tokens, code) && forall k :: 0 <= k < |windows| ==> windows[k] + |code| <= |mem|
    requires n <= |tokens| && Occurs(AllOverwritten(mem, windows, code), tokens, p, n)
    ensures Occurs(mem, tokens, p, n)
  {
    hide AllOverwritten, Fits;
    var r := AllOverwritten(mem, windows, code);
    forall k: nat | k < n
      ensures Fits(tokens[k], mem[p + k])
    {
      assert Fits(tokens[k], r[p + k]);
      FitWasThere(mem, windows, code, tokens[k], p + k);
    }
  }

  /** The reads in the range do not directly follow an unfinished one. */
  ghost predicate ReadsApart(mem: seq<Byte>, base: nat, size: nat) {
    forall q :: Match(mem, READ_ACTLR, base, base + size, q) ==> !PrefixBefore(mem, READ_ACTLR, base, q)
  }

  lemma PrefixWasThere(mem: seq<Byte>, base: nat, q: nat, windows: seq<nat>, code: seq<Byte>, tokens: seq<Token>)
    requires Apart(tokens, code) && forall k :: 0 <= k < |windows| ==> windows[k] + |code| <= |mem|
    requires PrefixBefore(AllOverwritten(mem, windows, code), tokens, base, q)
    ensures PrefixBefore(mem, tokens, base, q)
  {
    hide AllOverwritten, Occurs, Apart;
    var l: nat :| l > 0 && l < |tokens| && EndsAt(AllOverwritten(mem, windows, code), tokens, base, q, l);
    var start: nat := q - l;
    WasThere(mem, windows, code, tokens, start, l);
    assert EndsAt(mem, tokens, base, q, l);
  }

  lemma StayApart(mem: seq<Byte>, base: nat, size: nat, windows: seq<nat>)
    requires base + size <= |mem| && ReadsApart(mem, base, size) && WindowsFit(windows, |mem|)
    ensures ReadsApart(AllOverwritten(mem, windows, MOV_X8_ZERO), base, size)
  {
    ReadsAreApart();
    hide AllOverwritten, Occurs, PrefixBefore, Apart, MOV_X8_ZERO;
    var r := AllOverwritten(mem, windows, MOV_X8_ZERO);
    forall q: nat | Match(r, READ_ACTLR, base, base + size, q)
      ensures !PrefixBefore(r, READ_ACTLR, base, q)
    {
      WasThere(mem, windows, MOV_X8_ZERO, READ_ACTLR, q, 4);
      assert Match(mem, READ_ACTLR, base, base + size, q);
      if PrefixBefore(r, READ_ACTLR, base, q) {
        PrefixWasThere(mem, base, q, windows, MOV_X8_ZERO, READ_ACTLR);
      }
    }
  }

  /** Two occurrences of the pattern share no byte. */
  lemma ReadsDisjoint(mem: seq<Byte>, p: nat, q: nat)
    requires Occurs(mem, READ_ACTLR, p, 4) && Occurs(mem, READ_ACTLR, q, 4) && p < q
    ensures p + 4 <= q
  {
    assert Fits(READ_ACTLR[0], mem[q + 0]);
    assert q - p < 4 ==> Fits(READ_ACTLR[q - p], mem[p + (q - p)]);
  }

  /** An occurrence that is no window keeps its bytes. */
  lemma StillThere(mem: seq<Byte>, base: nat, size: nat, q: nat)
    requires 0 < base && base + size <= |mem| && Match(mem, READ_ACTLR, base, base + size, q)
    ensures var w := ReadWindows(mem, base, size, false, 0);
      && WindowsFit(w, |mem|)
      && (q in w || Match(AllOverwritten(mem, w, MOV_X8_ZERO), READ_ACTLR, base, base + size, q))
  {
    hide ReadWindows, AllOverwritten;
    ReadsPatched(mem, base, size, false, 0);
    var w := ReadWindows(mem, base, size, false, 0);
    var r := AllOverwritten(mem, w, MOV_X8_ZERO);
    if q !in w {
      forall k | 0 <= k < 4
        ensures Fits(READ_ACTLR[k], r[q + k])
      {
        assert Fits(READ_ACTLR[k], mem[q + k]);
        OverwrittenBytes(mem, w, MOV_X8_ZERO, q + k);
        forall j | 0 <= j < |w|
          ensures !(w[j] <= q + k < w[j] + 4)
        {
          if q < w[j] {
            ReadsDisjoint(mem, q, w[j]);
          } else if w[j] < q {
            ReadsDisjoint(mem, w[j], q);
          }
        }
      }
    }
  }

  /**
   * If no read directly follows an unfinished one and the patcher has stopped before its
   * third window, it has overwritten every read in the range, and none is left.
   */
  lemma NoReadsLeft(mem: seq<Byte>, base: nat, size: nat)
    requires 0 < base && base + size <= |mem| && ReadsApart(mem, base, size)
    ensures var w := ReadWindows(mem, base, size, false, 0);
      && WindowsFit(w, |mem|)
      && (|w| < MAX_READS ==>
            && NoMatch(AllOverwritten(mem, w, MOV_X8_ZERO), READ_ACTLR, base, base + size)
            && forall q :: q in w <==> Match(mem, READ_ACTLR, base, base + size, q))
  {
    ReadsPatched(mem, base, size, false, 0);
    ReadsComplete(mem, base, size, 0);
    var w := ReadWindows(mem, base, size, false, 0);
    hide ReadWindows, AllOverwritten, Find, Occurs, PrefixBefore;
    if |w| < MAX_READS {
      var r := AllOverwritten(mem, w, MOV_X8_ZERO);
      StayApart(mem, base, size, w);
      FindIsLeftmost(r, base, size, READ_ACTLR);
      forall q: nat
        ensures q in w <==> Match(mem, READ_ACTLR, base, base + size, q)
      {
        if Match(mem, READ_ACTLR, base, base + size, q) {
          StillThere(mem, base, size, q);
        }
      }
    }
  }

  /** A read that follows an unfinished one is overlooked, although the range holds no other. */
  lemma ReadOverlooked()
    ensures var mem: seq<Byte> := [0, 0x28, 0x28, 0x10, 0x38, 0xD5];
      && Match(mem, READ_ACTLR, 1, 6, 2) && Find(mem, 1, 5, READ_ACTLR) == 0
      && ReadWindows(mem, 1, 5, false, 0) == [] && PrefixBefore(mem, READ_ACTLR, 1, 2)
  {
    var mem: seq<Byte> := [0, 0x28, 0x28, 0x10, 0x38, 0xD5];
    assert EndsAt(mem, READ_ACTLR, 1, 2, 1);
    assert Advance(mem, READ_ACTLR, IDLE, 1) == Scan(1, 1);
    assert Advance(mem, READ_ACTLR, Scan(1, 1), 2) == IDLE;
    assert ScanFrom(mem, READ_ACTLR, 6, IDLE, 3) == 0 by {
      assert forall i :: 3 <= i < 6 ==> Advance(mem, READ_ACTLR, IDLE, i) == IDLE;
    }
  }

  /** Overwriting disjoint windows puts the code into each of them and leaves everything else. */
  lemma {:induction false} OverwrittenBytes(mem: seq<Byte>, windows: seq<nat>, code: seq<Byte>, i: nat)
    requires |code| == 4 && i < |mem| && forall k :: 0 <= k < |windows| ==> windows[k] + |code| <= |mem|
    requires forall j, k :: 0 <= j < k < |windows| ==> windows[j] + 4 <= windows[k] || windows[k] + 4 <= windows[j]
    ensures var r := AllOverwritten(mem, windows, code);
      && (!InWindow(windows, i) ==> r[i] == mem[i])
      && forall k :: 0 <= k < |windows| && windows[k] <= i < windows[k] + 4 ==> r[i] == code[i - windows[k]]
    decreases |windows|
  {
    if windows != [] {
      var m := Overwritten(mem, windows[0], code);
      OverwrittenBytes(m, windows[1..], code, i);
      assert forall k :: 0 < k < |windows| ==> windows[k] == windows[1..][k - 1];
      WindowsOfRest(windows, i);
    }
  }

  lemma WindowsOfRest(windows: seq<nat>, i: nat)
    requires windows != []
    ensures InWindow(windows, i) <==> windows[0] <= i < windows[0] + 4 || InWindow(windows[1..], i)
  {
    if k :| 0 <= k < |windows[1..]| && windows[1..][k] <= i < windows[1..][k] + 4 {
      assert windows[k + 1] == windows[1..][k];
    }
    if k :| 0 < k < |windows| && windows[k] <= i < windows[k] + 4 {
      assert windows[1..][k - 1] == windows[k];
    }
  }

  lemma NoWindows(mem: seq<Byte>, base: nat, size: nat, firmware: bool, done: nat)
    requires RangeOk(|mem|, base, size) && done < MAX_READS && Find(mem, base, size, READ_ACTLR) == 0
    ensures ReadWindows(mem, base, size, firmware, done) == []
  {
  }

  /** Overwriting no window. */
  lemma NoneOverwritten(mem: seq<Byte>)
    ensures WindowsFit([], |mem|) && AllOverwritten(mem, [], MOV_X8_ZERO) == mem
  {
  }

  lemma {:induction false} WindowsInside(mem: seq<Byte>, base: nat, size: nat, firmware: bool, done: nat)
    requires RangeOk(|mem|, base, size) && done < MAX_READS
    ensures WindowsFit(ReadWindows(mem, base, size, firmware, done), |mem|)
    decreases MAX_READS - done
  {
    hide Find;
    FindIsInside(mem, base, size, READ_ACTLR);
    var p := Find(mem, base, size, READ_ACTLR);
    if p != 0 && !firmware && done + 1 < MAX_READS {
      WindowsInside(Overwritten(mem, p, MOV_X8_ZERO), base, size, firmware, done + 1);
    }
  }

  /** One turn of the patcher's loop. */
  lemma WindowsStep(mem: seq<Byte>, base: nat, size: nat, firmware: bool, done: nat)
    requires RangeOk(|mem|, base, size) && done < MAX_READS && Find(mem, base, size, READ_ACTLR) != 0
    requires WindowsFit(ReadWindows(mem, base, size, firmware, done), |mem|)
    ensures var p, w := Find(mem, base, size, READ_ACTLR), ReadWindows(mem, base, size, firmware, done);
      && w != [] && p + 4 <= |mem| && WindowsFit(w[1..], |mem|)
      && w[1..] == (if firmware || done + 1 == MAX_READS then []
                    else ReadWindows(Overwritten(mem, p, MOV_X8_ZERO), base, size, firmware, done + 1))
      && AllOverwritten(mem, w, MOV_X8_ZERO) == AllOverwritten(Overwritten(mem, p, MOV_X8_ZERO), w[1..], MOV_X8_ZERO)
  {
    hide Find, Occurs;
    FindIsInside(mem, base, size, READ_ACTLR);
  }

  method ApplyReadACTLREL1Patches(mem: array<Byte>, base: nat, size: nat, isInFirmwareContext: bool)
    requires RangeOk(mem.Length, base, size)
    modifies mem
    ensures WindowsFit(ReadWindows(old(mem[..]), base, size, isInFirmwareContext, 0), mem.Length)
    ensures mem[..] == AllOverwritten(old(mem[..]), ReadWindows(old(mem[..]), base, size, isInFirmwareContext, 0), MOV_X8_ZERO)
  {
    ghost var was := mem[..];
    ghost var all := ReadWindows(was, base, size, isInFirmwareContext, 0);
    WindowsInside(was, base, size, isInFirmwareContext, 0);
    ghost var left := all;
    hide Find, Occurs, ReadWindows, AllOverwritten, WindowsFit;
    var illegal := FindBytes(mem, base, size, READ_ACTLR);
    if illegal == 0 {
      NoWindows(was, base, size, isInFirmwareContext, 0);
    }
    var patchCounter := 0;
    while illegal != 0
      invariant 0 <= patchCounter <= MAX_READS
      invariant WindowsFit(left, mem.Length)
      invariant AllOverwritten(mem[..], left, MOV_X8_ZERO) == AllOverwritten(was, all, MOV_X8_ZERO)
      invariant illegal == 0 ==> left == []
      invariant illegal != 0 ==> patchCounter < MAX_READS && illegal == Find(mem[..], base, size, READ_ACTLR)
      invariant illegal != 0 ==> left == ReadWindows(mem[..], base, size, isInFirmwareContext, patchCounter)
      decreases illegal != 0, MAX_READS - patchCounter
    {
      WindowsStep(mem[..], base, size, isInFirmwareContext, patchCounter);
      left := left[1..];
      CopyMemory(mem, illegal, MOV_X8_ZERO);
      if isInFirmwareContext {
        illegal := 0;
      } else {
        patchCounter := patchCounter + 1;
        if patchCounter != MAX_READS {
          illegal := FindBytes(mem, base, size, READ_ACTLR);
          if illegal == 0 {
            NoWindows(mem[..], base, size, isInFirmwareContext, patchCounter);
          }
        } else {
          illegal := 0;
        }
      }
    }
    NoneOverwritten(mem[..]);
  }

  // ---- the other patchers ----

  /** What a patcher of one place does: nothing, or code written from p - back on, p being an occurrence of its pattern. */
  ghost predicate OnePatched(was: seq<Byte>, now: seq<Byte>, tokens: seq<Token>, base: nat, size: nat, code: seq<Byte>, back: nat)
    requires tokens != [] && base + size <= |was|
  {
    var p := Find(was, base, size, tokens);
    if p == 0 then now == was
    else
      && (0 < base ==> Match(was, tokens, base, base + size, p))
      && back <= p && p - back + |code| <= |was| && now == Overwritten(was, p - back, code)
  }

  /** One occurrence at most; the context makes no difference. */
  method ApplyWriteACTLREL1Patches(mem: array<Byte>, base: nat, size: nat, isInFirmwareContext: bool)
    requires RangeOk(mem.Length, base, size)
    modifies mem
    ensures OnePatched(old(mem[..]), mem[..], WRITE_ACTLR, base, size, NOP, 0)
  {
    ghost var was := mem[..];
    FindIsInside(was, base, size, WRITE_ACTLR);
    if 0 < base {
      FindIsMatch(was, base, size, WRITE_ACTLR);
    }
    hide Find, Occurs;
    var illegal := FindBytes(mem, base, size, WRITE_ACTLR);
    ghost var p := illegal;
    while illegal != 0
      invariant illegal != 0 ==> illegal == p && mem[..] == was
      invariant illegal == 0 ==> if p == 0 then mem[..] == was else p + 4 <= |was| && mem[..] == Overwritten(was, p, NOP)
      decreases illegal != 0
    {
      CopyMemory(mem, illegal, NOP);
      illegal := 0;
    }
  }

  /** Four instructions are overwritten where three were matched. */
  method ApplyIncoherentCacheConfigurationPatches(mem: array<Byte>, base: nat, size: nat, isInFirmwareContext: bool)
    requires RangeOk(mem.Length, base, size + 4)
    modifies mem
    ensures OnePatched(old(mem[..]), mem[..], CACHE_CHECK, base, size, NOPS, 0)
  {
    FindIsInside(mem[..], base, size, CACHE_CHECK);
    if 0 < base {
      FindIsMatch(mem[..], base, size, CACHE_CHECK);
    }
    hide Find, Occurs;
    var kiCacheInitializeBC1 := FindBytes(mem, base, size, CACHE_CHECK);
    if kiCacheInitializeBC1 != 0 {
      CopyMemory(mem, kiCacheInitializeBC1, NOPS);
    }
  }

  /** The function begins eight instructions before the pattern. */
  method ApplyPsciMemoryProtectionPatches(mem: array<Byte>, base: nat, size: nat, isInFirmwareContext: bool)
    requires RangeOk(mem.Length, base, size)
    requires Find(mem[..], base, size, PSCI) != 0 ==> PSCI_OFFSET <= Find(mem[..], base, size, PSCI)
    modifies mem
    ensures OnePatched(old(mem[..]), mem[..], PSCI, base, size, RET, PSCI_OFFSET)
  {
    FindIsInside(mem[..], base, size, PSCI);
    if 0 < base {
      FindIsMatch(mem[..], base, size, PSCI);
    }
    hide Find, Occurs;
    var patternMatch := FindBytes(mem, base, size, PSCI);
    if patternMatch != 0 {
      CopyMemory(mem, patternMatch - PSCI_OFFSET, RET);
    }
  }
}
