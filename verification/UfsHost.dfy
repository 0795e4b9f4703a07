/**
 * The UFS host as it runs: descriptors edited and checked in place, polling loops, the
 * scatter list (Silicon/Samsung/Exynos9820Pkg/Library/ExynosUfsLib/ufs.c).  Queries to the
 * device succeed; it stores what is written.
 */
module UfsHost {
  import opened UfsAlloc
  import opened UfsCheck
  import opened UfsCommand

  class Host {
    const geometry: Geometry
    const luConf: seq<Lu>
    const configDesc: array<Lu>
    var bootLunEn: U32
    /** The configuration and attribute stored in the device. */
    var storedUnits: seq<Lu>
    var storedBootLunEn: U32

    var timeout: U32
    var uicCmdTimeout: U32
    var ufsCmdTimeout: U32

    ghost predicate Valid()
      reads this
    {
      GeometryOk(geometry) && ConfigOk(luConf) && configDesc.Length == LUS && ConfigOk(storedUnits)
    }

    constructor (geometry: Geometry, luConf: seq<Lu>, storedUnits: seq<Lu>, storedBootLunEn: U32, uicCmdTimeout: U32, ufsCmdTimeout: U32)
      requires GeometryOk(geometry) && ConfigOk(luConf) && ConfigOk(storedUnits)
      ensures Valid() && fresh(configDesc) && this.geometry == geometry && this.luConf == luConf
      ensures this.storedUnits == storedUnits && this.storedBootLunEn == storedBootLunEn
      ensures this.uicCmdTimeout == uicCmdTimeout && this.ufsCmdTimeout == ufsCmdTimeout
    {
      this.geometry, this.luConf := geometry, luConf;
      this.storedUnits, this.storedBootLunEn := storedUnits, storedBootLunEn;
      this.uicCmdTimeout, this.ufsCmdTimeout := uicCmdTimeout, ufsCmdTimeout;
      configDesc := new Lu[LUS](_ => Lu(0, 0, 0, 0, Settings(0, 0, 0, 0), 0));
      bootLunEn, timeout := 0, 0;
    }

    // ---- provisioning ----

    /** ufs_edit_config_desc. */
    method EditConfigDesc(lun: U32, enable: U32, bootLun: U32, writeProtect: U32, memoryType: U32, capacity: U32)
      requires Valid() && (lun < LUS || lun / 0x80 % 2 == 1)
      modifies configDesc
      ensures lun >= LUS ==> configDesc[..] == old(configDesc[..])
      ensures lun < LUS ==>
        configDesc[..] == Edit(geometry,
                               luConf[lun := Lu(enable, bootLun, writeProtect, memoryType, luConf[lun].settings, capacity)],
                               old(configDesc[..]), lun)
    {
      if lun >= LUS {
        return;
      }
      hide Swab, Wrap32, RawUnits, Quotient, Remainder, UnitSize;
      ghost var want := Lu(enable, bootLun, writeProtect, memoryType, luConf[lun].settings, capacity);
      ghost var was := configDesc[..];
      configDesc[lun] := configDesc[lun].(enable := enable, bootLunId := bootLun, writeProtect := writeProtect,
                                          memoryType := memoryType, settings := luConf[lun].settings);
      var words: U32;
      if capacity != 0 {
        if bootLun != 0 {
          words := Swab(BootQuotient(geometry, capacity));
        } else {
          words := Swab(NormalQuotient(geometry, capacity));
          if NormalRemainder(geometry, capacity) != 0 {
            words := Wrap32(words + Swab(1));
          }
        }
      } else {
        words := 0;
        configDesc[lun] := configDesc[lun].(allocUnits := 0);
        if enable != 0 {
          var sum := SumUnits();
          assert configDesc[..] == was[lun := want.(allocUnits := 0)];
          WrapTwice(RawUnits(geometry), Total(configDesc[..], LUS));
          words := Swab(Wrap32(RawUnits(geometry) - sum));
        }
      }
      configDesc[lun] := configDesc[lun].(allocUnits := words);
      assert configDesc[..] == was[lun := want.(allocUnits := words)];
    }

    /** The sum over the eight LUs, in 32 bits. */
    method SumUnits() returns (sum: U32)
      requires Valid()
      ensures sum == Wrap32(Total(configDesc[..], LUS))
    {
      hide Swab;
      sum := 0;
      for i := 0 to LUS
        invariant sum == Wrap32(Total(configDesc[..], i))
      {
        WrapSum(Total(configDesc[..], i), Swab(configDesc[i].allocUnits));
        sum := Wrap32(sum + Swab(configDesc[i].allocUnits));
      }
    }

    /** The loop over LUs 7 to 0. */
    method EditAll()
      requires Valid()
      modifies configDesc
      ensures configDesc[..] == EditPass(geometry, luConf, old(configDesc[..]))
    {
      hide Edit;
      var lun := LUS;
      while lun > 0
        invariant 0 <= lun <= LUS
        invariant EditDown(geometry, luConf, configDesc[..], lun) == EditPass(geometry, luConf, old(configDesc[..]))
      {
        lun := lun - 1;
        var c := luConf[lun];
        assert luConf[lun := c] == luConf;
        EditConfigDesc(lun, c.enable, c.bootLunId, c.writeProtect, c.memoryType, c.allocUnits);
      }
    }

    /** ufs_check_config_desc; true is RET_SUCCESS. */
    method CheckConfigDesc() returns (ok: bool)
      requires Valid()
      modifies configDesc, this`bootLunEn
      ensures configDesc[..] == storedUnits && bootLunEn == storedBootLunEn
      ensures ok == Check(geometry, luConf, storedUnits, storedBootLunEn)
    {
      hide Swab, LuAccepted;
      forall i | 0 <= i < LUS {
        configDesc[i] := storedUnits[i];
      }
      assert configDesc[..] == storedUnits;
      bootLunEn := storedBootLunEn;
      var sum: U32 := 0;
      var lun := LUS;
      while lun > 0
        invariant 0 <= lun <= LUS
        invariant CheckDown(geometry, luConf, storedUnits, lun, sum) == CheckDown(geometry, luConf, storedUnits, LUS, 0)
      {
        lun := lun - 1;
        sum := Wrap32(sum + Swab(configDesc[lun].allocUnits));
        if !LuAccepted(geometry, luConf[lun], configDesc[lun], sum) {
          return false;
        }
      }
      if bootLunEn == 0 {
        return false;
      }
      return true;
    }

    /** ufs_set_configuration_descriptor. */
    method SetConfigurationDescriptor() returns (ret: int)
      requires Valid()
      modifies configDesc, this`bootLunEn, this`storedUnits, this`storedBootLunEn
      ensures Valid()
      ensures var r := Configure(geometry, luConf, Provision(old(storedUnits), old(storedBootLunEn), 0));
        storedUnits == r.units && storedBootLunEn == r.bootLunEn && ret == Returned(r)
    {
      hide Check, EditPass;
      ghost var done := Configure(geometry, luConf, Provision(storedUnits, storedBootLunEn, 0));
      var retryCount := MAX_RETRIES;
      var retry := 0;
      ret := 0;
      var ok := CheckConfigDesc();
      while !ok
        invariant Valid() && 0 <= retry <= retryCount
        invariant configDesc[..] == storedUnits && ok == Check(geometry, luConf, storedUnits, storedBootLunEn)
        invariant Configure(geometry, luConf, Provision(storedUnits, storedBootLunEn, retry)) == done
        decreases retryCount - retry, !ok
      {
        if retryCount == retry {
          break;
        }
        retry := retry + 1;
        EditAll();
        storedUnits := configDesc[..];
        bootLunEn := 1;
        storedBootLunEn := bootLunEn;
        ok := CheckConfigDesc();
      }
      if retry > 0 {
        ret := 1;
      }
    }

    // ---- completion ----

    /** handle_ufs_int on one reading. */
    method HandleUfsInt(w: Wait, r: Reading) returns (v: Verdict)
      modifies this`timeout
      ensures var d := Decision(w, r);
        && v == (if d == InProgress && old(timeout) == 0 then Timeout else d)
        && timeout == (if d == InProgress then Wrap32(old(timeout) - 1) else old(timeout))
    {
      v := if w.Uic? then UicVerdict(w.command, r) else UtpVerdict(r);
      if r.fatal {
        v := Error;
      }
      if v == InProgress {
        var left := timeout;
        timeout := Wrap32(timeout - 1);
        if left == 0 {
          v := Timeout;
        }
      }
    }

    /** The loop that waits for completion; polls counts the readings taken. */
    method PollCompletion(w: Wait, device: nat -> Reading) returns (v: Verdict, polls: nat)
      modifies this`timeout
      ensures (v, polls) == Polled(w, device, 0, old(timeout))
    {
      hide Decision;
      polls := 0;
      v := InProgress;
      ghost var t := timeout;
      while v == InProgress
        invariant v == InProgress ==> polls <= t && timeout == t - polls
        invariant v == InProgress ==> Polled(w, device, polls, timeout) == Polled(w, device, 0, t)
        invariant v != InProgress ==> (v, polls) == Polled(w, device, 0, t)
        decreases v == InProgress, t - polls
      {
        v := HandleUfsInt(w, device(polls));
        polls := polls + 1;
      }
    }

    /**
     * send_uic_cmd: the verdict, the result code read from the second argument register, and
     * the command's third argument, into which a get reads the third register.
     */
    method SendUicCmd(c: Command, device: nat -> Reading, resultCode: U32, arg3: U32, register3: U32)
      returns (v: Verdict, failed: bool, polls: nat, value: U32)
      modifies this`timeout
      ensures (v, polls) == Polled(Uic(c), device, 0, uicCmdTimeout)
      ensures failed == (v != NoError || resultCode != 0)
      ensures value == if c == DmeGet || c == DmePeerGet then register3 else arg3
    {
      timeout := uicCmdTimeout;
      v, polls := PollCompletion(Uic(c), device);
      failed := v != NoError || resultCode != 0;
      value := arg3;
      if c == DmeGet || c == DmePeerGet {
        value := register3;
      }
    }

    /** __utp_wait_for_response; formatting a unit may take ten minutes. */
    method WaitForResponse(formatUnit: bool, device: nat -> Reading) returns (v: Verdict, polls: nat)
      modifies this`timeout
      ensures (v, polls) == Polled(Utp, device, 0, if formatUnit then 600_000_000 else ufsCmdTimeout)
    {
      timeout := ufsCmdTimeout;
      if formatUnit {
        timeout := 10 * 60 * 1000 * 1000;
      }
      v, polls := PollCompletion(Utp, device);
    }
  }

  // ---- scatter lists ----

  /** __utp_map_sg: fills the list for the buffer at buf. */
  method MapSg(prdTable: array<Prd>, buf: nat, len: U32, block: U32)
    requires block > 0 && Segments(len, block) <= prdTable.Length
    modifies prdTable
    ensures forall i :: 0 <= i < prdTable.Length ==>
      prdTable[i] == if len > 0 && i < Segments(len, block) then Entry(buf, i, block) else old(prdTable[i])
  {
    hide Entry;
    if len > 0 {
      var sgSegments := Segments(len, block);
      for i := 0 to sgSegments
        invariant forall k :: 0 <= k < prdTable.Length ==>
          prdTable[k] == if k < i then Entry(buf, k, block) else old(prdTable[k])
      {
        prdTable[i] := Entry(buf, i, block);
      }
    }
  }
}
