/** The ladder of power votes on the DSP, and the host that asks every session for it. */
module Power {
  import opened Errors

  const POWER_NONE: int := 0
  const POWER_MAX: int := 1

  const POWER_APPTYPE: bv8 := 0x01
  const POWER_DCVS_MAX: bv8 := 0x02
  const POWER_HVX: bv8 := 0x04
  const POWER_HMX: bv8 := 0x08
  const POWER_HMX_V2: bv8 := 0x10

  const STEP_APPTYPE: int := 1
  const STEP_DCVS_MAX: int := 2
  const STEP_HVX: int := 3
  const STEP_HMX: int := 4
  const STEP_HMX_V2: int := 5

  /** One DSP session: whether the call to it is lost, whether power can be set, and what each request answers. */
  datatype Dsp = Dsp(lost: int, available: bool, answer: int -> int)

  /** The number of votes in the ladder, which depends on how the DSP library was built. */
  function Steps(v2: bool): int {
    if v2 then STEP_HMX_V2 else STEP_HMX
  }

  /** The answer to step k, counted from 1. */
  function Vote(dsp: Dsp, k: int): int {
    if dsp.available then dsp.answer(k) else AEE_EUNSUPPORTED
  }

  ghost predicate Granted(dsp: Dsp, n: int) {
    forall k :: 1 <= k <= n ==> Vote(dsp, k) == 0
  }

  /** The mask of the first k steps. */
  function Prefix(k: int): (mask: bv8)
    requires 0 <= k <= STEP_HMX_V2
    ensures mask == (1 as bv8 << k) - 1
  {
    if k == 0 then 0x00 else if k == 1 then 0x01 else if k == 2 then 0x03
    else if k == 3 then 0x07 else if k == 4 then 0x0f else 0x1f
  }

  method ApplyPowerRequest(dsp: Dsp, k: int) returns (err: int)
    ensures err == Vote(dsp, k)
  {
    if !dsp.available {
      return AEE_EUNSUPPORTED;
    }
    return dsp.answer(k);
  }

  /** What the ladder leaves behind when it stops after granting n votes. */
  ghost predicate StoppedAfter(dsp: Dsp, v2: bool, n: int, applied: bv8, failedStep: int, failedError: int) {
    && 0 <= n <= Steps(v2) && Granted(dsp, n) && applied == Prefix(n)
    && if n == Steps(v2) then failedStep == failedError == 0
       else failedStep == n + 1 && failedError == Vote(dsp, n + 1) != 0
  }

  /**
   * The votes are asked for in order and the first refusal ends the ladder without failing the call:
   * the mask is always a prefix of the ladder and the failed step is the one after it.
   */
  method SetPower(dsp: Dsp, v2: bool, mode: int)
    returns (result: int, applied: bv8, failedStep: int, failedError: int, ghost n: int)
    ensures result == if mode == POWER_NONE || mode == POWER_MAX then AEE_SUCCESS else AEE_EBADPARM
    ensures mode != POWER_MAX ==> applied == 0 && failedStep == failedError == 0
    ensures mode == POWER_MAX ==> StoppedAfter(dsp, v2, n, applied, failedStep, failedError)
    ensures mode == POWER_MAX && !dsp.available ==>
      applied == 0 && failedStep == 1 && failedError == AEE_EUNSUPPORTED
    ensures mode == POWER_MAX && dsp.available ==>
      && (forall k :: 1 <= k <= n ==> dsp.answer(k) == 0) && applied == (1 as bv8 << n) - 1
      && (failedStep == 0 ==> n == if v2 then 5 else 4)
      && (failedStep != 0 ==> failedStep == n + 1 && failedError == dsp.answer(failedStep) != 0)
  {
    result, applied, failedStep, failedError, n := AEE_SUCCESS, 0, 0, 0, 0;
    if mode == POWER_NONE {
      return;
    }
    if mode != POWER_MAX {
      result := AEE_EBADPARM;
      return;
    }
    var err := ApplyPowerRequest(dsp, STEP_APPTYPE);
    if err != 0 {
      failedStep, failedError := STEP_APPTYPE, err;
      return;
    }
    applied, n := applied | POWER_APPTYPE, 1;
    err := ApplyPowerRequest(dsp, STEP_DCVS_MAX);
    if err != 0 {
      failedStep, failedError := STEP_DCVS_MAX, err;
      return;
    }
    applied, n := applied | POWER_DCVS_MAX, 2;
    err := ApplyPowerRequest(dsp, STEP_HVX);
    if err != 0 {
      failedStep, failedError := STEP_HVX, err;
      return;
    }
    applied, n := applied | POWER_HVX, 3;
    err := ApplyPowerRequest(dsp, STEP_HMX);
    if err != 0 {
      failedStep, failedError := STEP_HMX, err;
      return;
    }
    applied, n := applied | POWER_HMX, 4;
    if v2 {
      err := ApplyPowerRequest(dsp, STEP_HMX_V2);
      if err != 0 {
        failedStep, failedError := STEP_HMX_V2, err;
        return;
      }
      applied, n := applied | POWER_HMX_V2, 5;
    }
  }

  /** A session that answers the call and grants the whole ladder. */
  ghost predicate FullyPowered(dsp: Dsp, v2: bool) {
    dsp.lost == 0 && Granted(dsp, Steps(v2))
  }

  /** Why a session that is not fully powered is not: the lost call, or the first refused vote. */
  ghost predicate Refusal(dsp: Dsp, v2: bool, err: int) {
    if dsp.lost != 0 then err == dsp.lost
    else exists k :: 1 <= k <= Steps(v2) && Granted(dsp, k - 1) && err == Vote(dsp, k) != 0
  }

  /**
   * In max mode the host succeeds exactly when every session is fully powered, and then the mask it
   * reports is the one every session returned; otherwise it stops at the first session that is not,
   * reports that session's own error, and reports no mask. The fallback error is never used.
   */
  method ApplyPowerConfig(dsps: seq<Dsp>, v2: bool, mode: int) returns (err: int, applied: bv8, ghost asked: nat)
    ensures mode == POWER_NONE ==> err == 0 && applied == 0 && asked == 0
    ensures mode == POWER_MAX ==> (err == 0 <==> forall i: nat :: i < |dsps| ==> FullyPowered(dsps[i], v2))
    ensures mode == POWER_MAX && err == 0 ==> applied == if dsps == [] then 0 else Prefix(Steps(v2))
    ensures mode == POWER_MAX && err != 0 ==> 1 <= asked <= |dsps| && Refusal(dsps[asked - 1], v2, err)
    ensures mode == POWER_MAX && err != 0 ==> forall i: nat :: i < asked - 1 ==> FullyPowered(dsps[i], v2)
    ensures mode != POWER_MAX && mode != POWER_NONE && dsps != [] ==> asked == 1
    ensures mode != POWER_MAX && mode != POWER_NONE && dsps != [] && dsps[0].lost != 0 ==> err == dsps[0].lost
    ensures mode != POWER_MAX && mode != POWER_NONE && dsps != [] && dsps[0].lost == 0 ==> err == AEE_EBADPARM
    ensures err != 0 ==> applied == 0
  {
    var union: bv8 := 0;
    applied, asked := 0, 0;
    if mode == POWER_NONE {
      return 0, 0, 0;
    }
    var i := 0;
    while i < |dsps|
      invariant i <= |dsps| && asked == i
      invariant mode != POWER_MAX ==> i == 0
      invariant forall j: nat :: j < i ==> FullyPowered(dsps[j], v2)
      invariant union == if i == 0 then 0 else Prefix(Steps(v2))
    {
      asked := asked + 1;
      if dsps[i].lost != 0 {
        return dsps[i].lost, 0, asked;
      }
      var result, mask, failedStep, failedError;
      ghost var n;
      result, mask, failedStep, failedError, n := SetPower(dsps[i], v2, mode);
      if result != 0 {
        return result, 0, asked;
      }
      union := union | mask;
      if failedStep != 0 {
        assert Granted(dsps[i], failedStep - 1);
        return if failedError != 0 then failedError else AEE_EFAILED, 0, asked;
      }
      i := i + 1;
    }
    return 0, union, asked;
  }
}
