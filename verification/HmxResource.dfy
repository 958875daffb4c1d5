/** Staged acquisition and release of the HMX resource context, against a ledger of what is held. */
module HmxResource {
  import opened Words
  import opened Errors

  const HMX_ERR_BASE: int := 0x7000
  const STAGES: nat := 9

  /** The low eight bits of the cause, tagged with the stage that failed. */
  function HmxError(stage: nat, err: int): int {
    HMX_ERR_BASE + stage * 0x100 + err % 0x100
  }

  /** A stage error is never success and names its stage and the low byte of its cause. */
  lemma HmxErrorDecodes(stage: nat, err: int)
    requires stage < STAGES
    ensures HmxError(stage, err) != AEE_SUCCESS && HmxError(stage, err) != AEE_EUNSUPPORTED
    ensures (HmxError(stage, err) - HMX_ERR_BASE) / 0x100 == stage
    ensures HmxError(stage, err) % 0x100 == err % 0x100
  {
    QuotientIs(stage * 0x100 + err % 0x100, 0x100, stage, err % 0x100);
    QuotientIs(HmxError(stage, err), 0x100, 0x70 + stage, err % 0x100);
  }

  /** What the resource runtime answers at each stage; every combination is possible. */
  datatype Answers = Answers(
    apiPresent: bool,
    queryPresent: bool,
    queryErr: int,
    available: Word,
    initErr: int,
    cacheModeErr: int,
    vtcmParamErr: int,
    hmxParamErr: int,
    rctx: Word,
    cachedErr: int,
    pointerErr: int,
    pointer: Word,
    granted: Word,
    lockErr: int)

  /** The error of one stage taken alone, zero when the stage would succeed. */
  function StageError(a: Answers, stage: nat, required: Word, useCached: bool, useLock: bool): int
  {
    match stage
    case 0 => if a.queryPresent && a.queryErr == 0 && a.available < required then AEE_ENOMEMORY else 0
    case 1 => a.initErr
    case 2 => a.cacheModeErr
    case 3 => a.vtcmParamErr
    case 4 => a.hmxParamErr
    case 5 => if a.rctx == 0 then AEE_ENOMEMORY else 0
    case 6 => if useCached then a.cachedErr else 0
    case 7 => if a.pointerErr != 0 then a.pointerErr else if a.pointer == 0 then AEE_ENOMEMORY else 0
    case 8 => if useLock then a.lockErr else 0
    case _ => 0
  }

  ghost predicate StagesSucceed(a: Answers, n: nat, required: Word, useCached: bool, useLock: bool) {
    forall k: nat :: k < n ==> StageError(a, k, required, useCached, useLock) == 0
  }

  ghost predicate FailsAt(a: Answers, k: nat, required: Word, useCached: bool, useLock: bool, err: int) {
    && StagesSucceed(a, k, required, useCached, useLock)
    && StageError(a, k, required, useCached, useLock) != 0
    && err == HmxError(k, StageError(a, k, required, useCached, useLock))
  }

  /** The outcome: unsupported without the runtime, success iff every stage succeeds, else the first failing stage. */
  ghost predicate AcquireResult(a: Answers, required: Word, useCached: bool, useLock: bool, err: int) {
    if !a.apiPresent then err == AEE_EUNSUPPORTED
    else if err == AEE_SUCCESS then StagesSucceed(a, STAGES, required, useCached, useLock)
    else exists k: nat :: k < STAGES && FailsAt(a, k, required, useCached, useLock, err)
  }

  /** For any answers exactly one error code is possible. */
  lemma AcquireResultUnique(a: Answers, required: Word, useCached: bool, useLock: bool, err: int, err': int)
    requires AcquireResult(a, required, useCached, useLock, err)
    requires AcquireResult(a, required, useCached, useLock, err')
    ensures err == err'
  {
    if a.apiPresent && err != AEE_SUCCESS {
      var k: nat :| k < STAGES && FailsAt(a, k, required, useCached, useLock, err);
      assert err' != AEE_SUCCESS;
      var k': nat :| k' < STAGES && FailsAt(a, k', required, useCached, useLock, err');
      assert k == k';
    }
  }

  /** The stages in their order, each with the answers it depends on. */
  lemma AcquireResultIs(a: Answers, required: Word, useCached: bool, useLock: bool, err: int)
    requires AcquireResult(a, required, useCached, useLock, err)
    ensures !a.apiPresent ==> err == AEE_EUNSUPPORTED
    ensures a.apiPresent ==>
      err == if a.queryPresent && a.queryErr == 0 && a.available < required then HmxError(0, AEE_ENOMEMORY)
             else if a.initErr != 0 then HmxError(1, a.initErr)
             else if a.cacheModeErr != 0 then HmxError(2, a.cacheModeErr)
             else if a.vtcmParamErr != 0 then HmxError(3, a.vtcmParamErr)
             else if a.hmxParamErr != 0 then HmxError(4, a.hmxParamErr)
             else if a.rctx == 0 then HmxError(5, AEE_ENOMEMORY)
             else if useCached && a.cachedErr != 0 then HmxError(6, a.cachedErr)
             else if a.pointerErr != 0 || a.pointer == 0 then
               HmxError(7, if a.pointerErr != 0 then a.pointerErr else AEE_ENOMEMORY)
             else if useLock && a.lockErr != 0 then HmxError(8, a.lockErr)
             else AEE_SUCCESS
  {
    if a.apiPresent && err != AEE_SUCCESS {
      var k: nat :| k < STAGES && FailsAt(a, k, required, useCached, useLock, err);
      assert k <= 0 || StageError(a, 0, required, useCached, useLock) == 0;
      assert k <= 1 || StageError(a, 1, required, useCached, useLock) == 0;
      assert k <= 2 || StageError(a, 2, required, useCached, useLock) == 0;
      assert k <= 3 || StageError(a, 3, required, useCached, useLock) == 0;
      assert k <= 4 || StageError(a, 4, required, useCached, useLock) == 0;
      assert k <= 5 || StageError(a, 5, required, useCached, useLock) == 0;
      assert k <= 6 || StageError(a, 6, required, useCached, useLock) == 0;
      assert k <= 7 || StageError(a, 7, required, useCached, useLock) == 0;
    } else if a.apiPresent {
      assert StageError(a, 0, required, useCached, useLock) == 0 && StageError(a, 1, required, useCached, useLock) == 0;
      assert StageError(a, 2, required, useCached, useLock) == 0 && StageError(a, 3, required, useCached, useLock) == 0;
      assert StageError(a, 4, required, useCached, useLock) == 0 && StageError(a, 5, required, useCached, useLock) == 0;
      assert StageError(a, 6, required, useCached, useLock) == 0 && StageError(a, 7, required, useCached, useLock) == 0;
      assert StageError(a, 8, required, useCached, useLock) == 0;
    }
  }

  /** The runtime's side: which contexts exist, and which of them are cached and locked. */
  class ResourceManager {
    var held: set<Word>
    var cached: set<Word>
    var locked: set<Word>

    ghost predicate Valid()
      reads this
    {
      0 !in held && cached <= held && locked <= held
    }

    constructor ()
      ensures Valid() && held == {}
    {
      held, cached, locked := {}, {}, {};
    }

    /** Grants a context that is not in use, or none. */
    method Acquire(answer: Word) returns (rctx: Word)
      requires Valid() && answer !in held
      modifies this`held
      ensures Valid() && rctx == answer
      ensures held == if rctx == 0 then old(held) else old(held) + {rctx}
    {
      rctx := answer;
      if rctx != 0 {
        held := held + {rctx};
      }
    }

    method AcquireCached(rctx: Word, answer: int) returns (err: int)
      requires Valid() && rctx in held && rctx !in cached && rctx !in locked
      modifies this`cached
      ensures Valid() && err == answer
      ensures cached == if err == 0 then old(cached) + {rctx} else old(cached)
    {
      err := answer;
      if err == 0 {
        cached := cached + {rctx};
      }
    }

    method HmxLock(rctx: Word, answer: int) returns (err: int)
      requires Valid() && rctx in held && rctx !in locked
      modifies this`locked
      ensures Valid() && err == answer
      ensures locked == if err == 0 then old(locked) + {rctx} else old(locked)
    {
      err := answer;
      if err == 0 {
        locked := locked + {rctx};
      }
    }

    method HmxUnlock(rctx: Word)
      requires Valid() && rctx in locked
      modifies this`locked
      ensures Valid() && locked == old(locked) - {rctx}
    {
      locked := locked - {rctx};
    }

    /** Legal only once the lock is gone. */
    method ReleaseCached(rctx: Word)
      requires Valid() && rctx in cached && rctx !in locked
      modifies this`cached
      ensures Valid() && cached == old(cached) - {rctx}
    {
      cached := cached - {rctx};
    }

    /** Legal only once the lock and the cached hold are gone. */
    method Release(rctx: Word)
      requires Valid() && rctx in held && rctx !in cached && rctx !in locked
      modifies this`held
      ensures Valid() && held == old(held) - {rctx}
    {
      held := held - {rctx};
    }
  }

  /** The caller's record of what it holds. */
  class Resource {
    var rctx: Word
    var vtcm: Word
    var vtcmSize: Word
    var cached: bool
    var locked: bool

    constructor ()
      ensures Clear()
    {
      rctx, vtcm, vtcmSize, cached, locked := 0, 0, 0, false, false;
    }

    ghost predicate Clear()
      reads this
    {
      rctx == 0 && vtcm == 0 && vtcmSize == 0 && !cached && !locked
    }

    /** The flags say exactly what the manager holds for this context. */
    ghost predicate Matches(mgr: ResourceManager)
      reads this, mgr
    {
      && mgr.Valid()
      && (rctx != 0 <==> rctx in mgr.held)
      && (cached <==> rctx in mgr.cached)
      && (locked <==> rctx in mgr.locked)
    }

    method Reset()
      modifies this
      ensures Clear()
    {
      rctx, vtcm, vtcmSize, cached, locked := 0, 0, 0, false, false;
    }

    method ReleaseAll(mgr: ResourceManager)
      requires Matches(mgr)
      modifies this, mgr
      ensures Clear() && mgr.Valid()
      ensures mgr.held == old(mgr.held) - {old(rctx)}
      ensures mgr.cached == old(mgr.cached) - {old(rctx)}
      ensures mgr.locked == old(mgr.locked) - {old(rctx)}
    {
      if locked {
        mgr.HmxUnlock(rctx);
      }
      if cached {
        mgr.ReleaseCached(rctx);
      }
      if rctx != 0 {
        mgr.Release(rctx);
      }
      Reset();
    }

    /** The stages that only fill in the request: nothing is held yet. */
    static method PrepareRequest(required: Word, useCached: bool, useLock: bool, a: Answers) returns (err: int)
      ensures err == 0 <==> a.apiPresent && StagesSucceed(a, 5, required, useCached, useLock)
      ensures err != 0 ==> AcquireResult(a, required, useCached, useLock, err)
    {
      if !a.apiPresent {
        return AEE_EUNSUPPORTED;
      }
      if a.queryPresent && a.queryErr == 0 && a.available < required {
        assert FailsAt(a, 0, required, useCached, useLock, HmxError(0, AEE_ENOMEMORY));
        return HmxError(0, AEE_ENOMEMORY);
      }
      err := a.initErr;
      if err != 0 {
        assert FailsAt(a, 1, required, useCached, useLock, HmxError(1, err));
        return HmxError(1, err);
      }
      err := a.cacheModeErr;
      if err != 0 {
        assert FailsAt(a, 2, required, useCached, useLock, HmxError(2, err));
        return HmxError(2, err);
      }
      err := a.vtcmParamErr;
      if err != 0 {
        assert FailsAt(a, 3, required, useCached, useLock, HmxError(3, err));
        return HmxError(3, err);
      }
      err := a.hmxParamErr;
      if err != 0 {
        assert FailsAt(a, 4, required, useCached, useLock, HmxError(4, err));
        return HmxError(4, err);
      }
      return AEE_SUCCESS;
    }

    /** The stages after a context was granted; a failure gives it back. */
    method TakeStages(mgr: ResourceManager, required: Word, useCached: bool, useLock: bool, a: Answers)
      returns (err: int)
      requires Matches(mgr) && rctx == a.rctx != 0 && !cached && !locked
      requires a.apiPresent && StagesSucceed(a, 6, required, useCached, useLock)
      modifies this, mgr
      ensures AcquireResult(a, required, useCached, useLock, err)
      ensures mgr.Valid()
      ensures mgr.held == if err != 0 then old(mgr.held) - {a.rctx} else old(mgr.held)
      ensures mgr.cached == if err == 0 && useCached then old(mgr.cached) + {a.rctx} else old(mgr.cached)
      ensures mgr.locked == if err == 0 && useLock then old(mgr.locked) + {a.rctx} else old(mgr.locked)
      ensures err != 0 ==> Clear()
      ensures err == 0 ==> Matches(mgr) && rctx == a.rctx && vtcm == a.pointer && vtcmSize == a.granted
      ensures err == 0 ==> cached == useCached && locked == useLock
    {
      if useCached {
        err := mgr.AcquireCached(rctx, a.cachedErr);
        if err != 0 {
          mgr.Release(rctx);
          Reset();
          assert FailsAt(a, 6, required, useCached, useLock, HmxError(6, err));
          return HmxError(6, err);
        }
        cached := true;
      }
      err := a.pointerErr;
      if err != 0 || a.pointer == 0 {
        if cached {
          mgr.ReleaseCached(rctx);
        }
        mgr.Release(rctx);
        Reset();
        err := if err != 0 then err else AEE_ENOMEMORY;
        assert FailsAt(a, 7, required, useCached, useLock, HmxError(7, err));
        return HmxError(7, err);
      }
      vtcm := a.pointer;
      vtcmSize := a.granted;
      if useLock {
        err := mgr.HmxLock(rctx, a.lockErr);
        if err != 0 {
          ReleaseAll(mgr);
          assert FailsAt(a, 8, required, useCached, useLock, HmxError(8, err));
          return HmxError(8, err);
        }
        locked := true;
      }
      return AEE_SUCCESS;
    }

    /**
     * Staged acquisition. A failure at any stage leaves the manager exactly as it was and the record
     * cleared; success adds one context, cached and locked exactly as asked.
     */
    method AcquireAll(mgr: ResourceManager, required: Word, useCached: bool, useLock: bool, a: Answers)
      returns (err: int)
      requires mgr.Valid() && a.rctx !in mgr.held
      modifies this, mgr
      ensures AcquireResult(a, required, useCached, useLock, err)
      ensures mgr.Valid()
      ensures err != 0 ==> Clear() && mgr.held == old(mgr.held)
      ensures err != 0 ==> mgr.cached == old(mgr.cached) && mgr.locked == old(mgr.locked)
      ensures err == 0 ==> Matches(mgr) && rctx == a.rctx && vtcm == a.pointer && vtcmSize == a.granted
      ensures err == 0 ==> cached == useCached && locked == useLock
      ensures err == 0 ==> rctx !in old(mgr.held) && mgr.held == old(mgr.held) + {rctx}
      ensures err == 0 ==> mgr.cached == old(mgr.cached) + (if useCached then {rctx} else {})
      ensures err == 0 ==> mgr.locked == old(mgr.locked) + (if useLock then {rctx} else {})
    {
      Reset();
      err := PrepareRequest(required, useCached, useLock, a);
      if err != 0 {
        return;
      }
      rctx := mgr.Acquire(a.rctx);
      if rctx == 0 {
        assert FailsAt(a, 5, required, useCached, useLock, HmxError(5, AEE_ENOMEMORY));
        return HmxError(5, AEE_ENOMEMORY);
      }
      err := TakeStages(mgr, required, useCached, useLock, a);
    }
  }
}
