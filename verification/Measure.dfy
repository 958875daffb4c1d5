/** The measurement of one round: workers forked and joined, and their slots aggregated. */
module Measure {
  import opened Words
  import opened Errors
  import opened Checksum
  import opened Vectors
  import opened ComputeKernels
  import opened MemKernels
  import opened CopyVerify
  import opened ForkJoin
  import opened Results

  datatype ComputeReply = ComputeReply(err: int, float: Accumulators, ticks: DWord)
  datatype InfoReply = InfoReply(err: int, hvxBytes: DWord, overhead: DWord, cycles: DWord)

  /** transfer is what the host sees of the bytes the DSP wrote; a faithful transfer is the identity. */
  datatype MemReply = MemReply(err: int, ticks: DWord, transfer: seq<Byte> -> seq<Byte>)

  /** Everything the outside world decides in one round. */
  datatype Round = Round(
    argsAllocated: bool,
    threadsAllocated: bool,
    createErr: nat -> int,
    elapsed: real,
    compute: nat -> ComputeReply,
    info: nat -> nat -> InfoReply,
    mem: nat -> MemReply)

  // ---------------------------------------------------------------------------------------------
  // Aggregation of the joined slots

  /** The lowest index that reports an error, or the number of slots. */
  function FirstFailing(outs: seq<Outcome>): (k: nat)
    ensures k <= |outs| && (forall j: nat :: j < k ==> outs[j].err == 0)
    ensures k < |outs| ==> outs[k].err != 0
  {
    if outs == [] then 0
    else if outs[0].err != 0 then 0
    else 1 + FirstFailing(outs[1..])
  }

  function MaxCycles(outs: seq<Outcome>): DWord {
    if outs == [] then 0
    else
      var c := MaxCycles(outs[..|outs| - 1]);
      var last := outs[|outs| - 1];
      if last.cycles > c then last.cycles else c
  }

  /** An upper bound of all cycle counts that is attained, or zero. */
  lemma {:induction false} MaxCyclesIsMaximum(outs: seq<Outcome>)
    ensures forall i: nat :: i < |outs| ==> outs[i].cycles <= MaxCycles(outs)
    ensures MaxCycles(outs) == 0 || exists i: nat :: i < |outs| && outs[i].cycles == MaxCycles(outs)
  {
    if outs != [] {
      var n := |outs| - 1;
      MaxCyclesIsMaximum(outs[..n]);
      assert forall i: nat :: i < n ==> outs[..n][i] == outs[i];
    }
  }

  function Checksums(outs: seq<Outcome>): (cs: seq<DWord>)
    ensures |cs| == |outs|
  {
    seq(|outs|, i requires 0 <= i < |outs| => outs[i].checksum)
  }

  /** The maximum and the checksum of the first i slots. */
  predicate Gathered(outs: seq<Outcome>, i: nat, cycles: DWord, checksum: DWord) {
    i <= |outs| && cycles == MaxCycles(outs[..i]) && checksum == ThreadsChecksum(Checksums(outs[..i]))
  }

  lemma GatheredNone(outs: seq<Outcome>)
    ensures Gathered(outs, 0, 0, FNV_OFFSET)
  {
    ThreadsChecksumSnoc([], 0);
    assert Checksums(outs[..0]) == [];
  }

  lemma GatheredOneMore(outs: seq<Outcome>, i: nat, cycles: DWord, checksum: DWord)
    requires i < |outs| && Gathered(outs, i, cycles, checksum)
    ensures Gathered(outs, i + 1, if outs[i].cycles > cycles then outs[i].cycles else cycles,
                     MixChecksum(checksum, outs[i].checksum, i))
  {
    assert outs[..i + 1][..i] == outs[..i];
    assert Checksums(outs[..i + 1]) == Checksums(outs[..i]) + [outs[i].checksum];
    ThreadsChecksumSnoc(Checksums(outs[..i]), outs[i].checksum);
  }

  lemma GatheredAll(outs: seq<Outcome>, cycles: DWord, checksum: DWord)
    requires Gathered(outs, |outs|, cycles, checksum)
    ensures cycles == MaxCycles(outs) && checksum == ThreadsChecksum(Checksums(outs))
  {
    assert outs[..|outs|] == outs;
  }

  /** The final pass over the slots: the lowest failing index decides, else maximum and mixed checksum. */
  method Collect(outs: seq<Outcome>) returns (err: int, cycles: DWord, checksum: DWord)
    ensures err == if FirstFailing(outs) < |outs| then outs[FirstFailing(outs)].err else 0
    ensures err == 0 ==> cycles == MaxCycles(outs) && checksum == ThreadsChecksum(Checksums(outs))
  {
    hide Gathered, FirstFailing, MaxCycles, ThreadsChecksum, Checksums, MixChecksum;
    err, cycles, checksum := 0, 0, FNV_OFFSET;
    GatheredNone(outs);
    var i := 0;
    while i < |outs|
      invariant i <= |outs| && i <= FirstFailing(outs) && err == 0
      invariant Gathered(outs, i, cycles, checksum)
    {
      if outs[i].err != 0 {
        err := outs[i].err;
        return;
      }
      GatheredOneMore(outs, i, cycles, checksum);
      if outs[i].cycles > cycles {
        cycles := outs[i].cycles;
      }
      checksum := MixChecksum(checksum, outs[i].checksum, i);
      i := i + 1;
    }
    GatheredAll(outs, cycles, checksum);
  }

  /** A per-thread count times the number of threads, in 64-bit arithmetic. */
  function TotalCount(perThread: int, n: nat): DWord {
    perThread * n % WORD64
  }

  lemma CountIsExact(perThread: int, n: nat)
    requires 0 <= perThread <= INT_MAX && n <= 256
    ensures TotalCount(perThread, n) == perThread * n
  {
    MultipleAtMost(perThread, n);
    QuotientIs(perThread * n, WORD64, 0, perThread * n);
  }

  lemma MultipleAtMost(p: nat, n: nat)
    requires n <= 256
    ensures p * n <= p * 256
  {
    assert p * (256 - n) >= 0;
  }

  /** How many workers come to exist; a single worker runs inside main. */
  function Created(r: Round, n: nat): (k: nat)
    ensures k <= n
  {
    if n > 1 then CreatedCount(r.createErr, n) else n
  }

  predicate Allocated(r: Round, n: nat) {
    r.argsAllocated && (n > 1 ==> r.threadsAllocated)
  }

  /** The result of a round in which worker i ends with outs[i]. */
  function Aggregate(r: Round, n: nat, perThread: int, outs: seq<Outcome>): Measured
    requires |outs| == n
  {
    if !Allocated(r, n) then Failed(-ENOMEM)
    else if Created(r, n) < n then Failed(r.createErr(Created(r, n)))
    else if FirstFailing(outs) < n then Failed(outs[FirstFailing(outs)].err)
    else Totals(TotalCount(perThread, n), MaxCycles(outs), ThreadsChecksum(Checksums(outs)), r.elapsed)
  }

  /**
   * What a round reports when worker i ends with outs[i]. Missing memory comes first, then the first
   * worker that could not be created, then the lowest worker that failed. Otherwise the cycles are those
   * of the slowest worker, the checksum mixes the workers' own in index order, and every thread counts
   * the same.
   */
  ghost predicate Concluded(r: Round, n: nat, perThread: int, outs: seq<Outcome>, m: Measured)
    requires |outs| == n
  {
    if !r.argsAllocated || (n > 1 && !r.threadsAllocated) then m == Failed(-ENOMEM)
    else if n > 1 && exists i: nat :: i < n && r.createErr(i) != 0 then
      exists k: nat :: k < n && r.createErr(k) != 0 && (forall i: nat :: i < k ==> r.createErr(i) == 0)
        && m == Failed(r.createErr(k))
    else if exists i: nat :: i < n && outs[i].err != 0 then
      exists k: nat :: k < n && outs[k].err != 0 && (forall i: nat :: i < k ==> outs[i].err == 0)
        && m == Failed(outs[k].err)
    else
      && m.Totals? && m.elapsed == r.elapsed && m.count == perThread * n % WORD64
      && (forall i: nat :: i < n ==> outs[i].cycles <= m.cycles)
      && (m.cycles == 0 || exists i: nat :: i < n && outs[i].cycles == m.cycles)
      && m.checksum == ThreadsChecksum(seq(n, i requires 0 <= i < n => outs[i].checksum))
  }

  lemma AggregateConcludes(r: Round, n: nat, perThread: int, outs: seq<Outcome>)
    requires |outs| == n
    ensures Concluded(r, n, perThread, outs, Aggregate(r, n, perThread, outs))
  {
    hide MaxCycles, ThreadsChecksum, CreatedCount;
    MaxCyclesIsMaximum(outs);
    assert Checksums(outs) == seq(n, i requires 0 <= i < n => outs[i].checksum);
    if Allocated(r, n) && Created(r, n) < n {
      assert r.createErr(Created(r, n)) != 0;
    }
  }

  /** A failed round always carries an error the callers recognise. */
  lemma FailureIsVisible(r: Round, n: nat, perThread: int, outs: seq<Outcome>)
    requires |outs| == n
    ensures Aggregate(r, n, perThread, outs).Failed? ==> Aggregate(r, n, perThread, outs).err != 0
  {
  }

  method Conclude(r: Round, n: nat, perThread: int, outs: seq<Outcome>, createErr: int) returns (m: Measured)
    requires |outs| == n && Allocated(r, n)
    requires createErr == if Created(r, n) < n then r.createErr(Created(r, n)) else 0
    ensures m == Aggregate(r, n, perThread, outs)
  {
    if createErr != 0 {
      return Failed(createErr);
    }
    var err, cycles, checksum := Collect(outs);
    return if err != 0 then Failed(err) else Totals(TotalCount(perThread, n), cycles, checksum, r.elapsed);
  }

  // ---------------------------------------------------------------------------------------------
  // measure_compute_threads

  datatype ComputeSlot = ComputeSlot(finished: bool, out: Outcome)

  /** One remote call: lost with the transport's error, or answered by the DSP. */
  function ComputeCall(reply: ComputeReply, kernel: int, iterations: int): Outcome {
    if reply.err != 0 then Outcome(reply.err, 0, 0)
    else ComputeOutcome(kernel, iterations, reply.float, reply.ticks)
  }

  function ComputeOutcomes(r: Round, n: nat, kernel: int, iterations: int): (outs: seq<Outcome>)
    ensures |outs| == n
  {
    seq(n, i requires 0 <= i < n => ComputeCall(r.compute(i), kernel, iterations))
  }

  function ComputeWorkers(r: Round, n: nat, kernel: int, iterations: int): Workers<ComputeSlot> {
    Workers(n,
            i => ComputeSlot(false, Outcome(0, 0, 0)),
            (i, s) => ComputeSlot(true, ComputeCall(r.compute(i), kernel, iterations)),
            (i, s: ComputeSlot) => if s.finished then 0 else 1,
            r.createErr)
  }

  /** For every interleaving the result is that of the workers taken in index order. */
  method MeasureComputeThreads(r: Round, n: nat, kernel: int, iterations: int) returns (m: Measured)
    requires n >= 1
    ensures m == Aggregate(r, n, iterations, ComputeOutcomes(r, n, kernel, iterations))
    ensures Concluded(r, n, iterations, ComputeOutcomes(r, n, kernel, iterations), m)
  {
    hide Concluded;
    AggregateConcludes(r, n, iterations, ComputeOutcomes(r, n, kernel, iterations));
    if !r.argsAllocated || (n > 1 && !r.threadsAllocated) {
      return Failed(-ENOMEM);
    }
    var outs: seq<Outcome>;
    var createErr := 0;
    var w := ComputeWorkers(r, n, kernel, iterations);
    if n == 1 {
      var slot := RunAlone(w, 0);
      outs := [slot.out];
    } else {
      var machine := RunThreads(w);
      createErr := machine.err;
      outs := seq(n, i requires 0 <= i < n => machine.slots[i].out);
    }
    if createErr == 0 {
      forall i: nat | i < n
        ensures outs[i] == ComputeCall(r.compute(i), kernel, iterations)
      {
        assert Finish(w, i, w.init(i)) == w.next(i, w.init(i));
      }
      assert outs == ComputeOutcomes(r, n, kernel, iterations);
    }
    m := Conclude(r, n, iterations, outs, createErr);
  }

  // ---------------------------------------------------------------------------------------------
  // measure_rpc_threads

  datatype RpcSlot = RpcSlot(done: nat, stopped: bool, last: DWord, out: Outcome)

  function InfoChecksum(reply: InfoReply): DWord {
    XorDWord(XorDWord(reply.cycles, reply.overhead), reply.hvxBytes)
  }

  /** The first call that fails, or the number of calls. */
  function FirstFailingCall(info: nat -> InfoReply, calls: nat): (k: nat)
    ensures k <= calls && (forall t: nat :: t < k ==> info(t).err == 0)
    ensures k < calls ==> info(k).err != 0
  {
    if calls == 0 then 0
    else
      var k := FirstFailingCall(info, calls - 1);
      if k < calls - 1 || info(calls - 1).err != 0 then k else calls
  }

  /** A worker stops at its first failing call; otherwise it reports what its last call returned. */
  function RpcOutcome(info: nat -> InfoReply, calls: nat): Outcome {
    var k := FirstFailingCall(info, calls);
    if k < calls then Outcome(info(k).err, 0, 0)
    else Outcome(0, 0, if calls == 0 then 0 else InfoChecksum(info(calls - 1)))
  }

  function RpcOutcomes(r: Round, n: nat, calls: nat): (outs: seq<Outcome>)
    ensures |outs| == n
  {
    seq(n, i requires 0 <= i < n => RpcOutcome(r.info(i), calls))
  }

  function RpcNext(info: nat -> InfoReply, calls: nat, s: RpcSlot): RpcSlot {
    if s.done >= calls then s.(stopped := true, out := Outcome(0, 0, s.last))
    else if info(s.done).err != 0 then s.(stopped := true, out := Outcome(info(s.done).err, 0, 0))
    else s.(done := s.done + 1, last := InfoChecksum(info(s.done)))
  }

  function RpcLeft(calls: nat, s: RpcSlot): nat {
    if s.stopped then 0 else if s.done >= calls then 1 else calls - s.done + 1
  }

  function RpcWorkers(r: Round, n: nat, calls: nat): Workers<RpcSlot> {
    Workers(n,
            i => RpcSlot(0, false, 0, Outcome(0, 0, 0)),
            (i, s) => RpcNext(r.info(i), calls, s),
            (i, s) => RpcLeft(calls, s),
            r.createErr)
  }

  lemma RpcSound(r: Round, n: nat, calls: nat)
    ensures Sound(RpcWorkers(r, n, calls))
  {
    var w := RpcWorkers(r, n, calls);
    forall i: nat, s: RpcSlot | w.left(i, s) > 0
      ensures w.left(i, w.next(i, s)) < w.left(i, s)
    {
      assert w.next(i, s) == RpcNext(r.info(i), calls, s);
    }
  }

  lemma {:induction false} RpcFinishes(r: Round, n: nat, calls: nat, i: nat, s: RpcSlot)
    requires Sound(RpcWorkers(r, n, calls))
    requires !s.stopped && s.done <= calls && forall t: nat :: t < s.done ==> r.info(i)(t).err == 0
    requires s.last == if s.done == 0 then 0 else InfoChecksum(r.info(i)(s.done - 1))
    ensures Finish(RpcWorkers(r, n, calls), i, s).out == RpcOutcome(r.info(i), calls)
    decreases calls - s.done
  {
    var w := RpcWorkers(r, n, calls);
    var s' := w.next(i, s);
    assert s' == RpcNext(r.info(i), calls, s);
    if s.done < calls && r.info(i)(s.done).err == 0 {
      RpcFinishes(r, n, calls, i, s');
    } else {
      assert Finish(w, i, s) == Finish(w, i, s') == s';
      assert FirstFailingCall(r.info(i), calls) == s.done;
    }
  }

  method MeasureRpcThreads(r: Round, n: nat, calls: nat) returns (m: Measured)
    requires n >= 1
    ensures m == Aggregate(r, n, calls, RpcOutcomes(r, n, calls))
    ensures Concluded(r, n, calls, RpcOutcomes(r, n, calls), m)
  {
    hide Concluded;
    AggregateConcludes(r, n, calls, RpcOutcomes(r, n, calls));
    if !r.argsAllocated || (n > 1 && !r.threadsAllocated) {
      return Failed(-ENOMEM);
    }
    var outs: seq<Outcome>;
    var createErr := 0;
    var w := RpcWorkers(r, n, calls);
    RpcSound(r, n, calls);
    if n == 1 {
      var slot := RunAlone(w, 0);
      outs := [slot.out];
    } else {
      var machine := RunThreads(w);
      createErr := machine.err;
      outs := seq(n, i requires 0 <= i < n => machine.slots[i].out);
    }
    if createErr == 0 {
      forall i: nat | i < n
        ensures outs[i] == RpcOutcome(r.info(i), calls)
      {
        RpcFinishes(r, n, calls, i, w.init(i));
      }
      assert outs == RpcOutcomes(r, n, calls);
    }
    m := Conclude(r, n, calls, outs, createErr);
  }

  // ---------------------------------------------------------------------------------------------
  // measure_mem_threads

  const MEM_READ: int := 0
  const MEM_WRITE: int := 1
  const MEM_COPY: int := 2

  /** A worker first calls the DSP; a copy that succeeded is then verified in a second action. */
  datatype MemSlot = MemSlot(stage: nat, dst: seq<Byte>, out: Outcome)

  ghost predicate LengthPreserving(reply: MemReply) {
    forall b: seq<Byte> :: |reply.transfer(b)| == |b|
  }

  ghost predicate RoundKeepsLengths(r: Round) {
    forall i: nat :: LengthPreserving(r.mem(i))
  }

  function MemCall(kind: int, src: seq<Byte>, dst: seq<Byte>, repeats: int, reply: MemReply): MemSlot
    requires |dst| <= MAX_SAMPLED
  {
    if reply.err != 0 then MemSlot(2, dst, Outcome(reply.err, 0, 0))
    else if kind == MEM_READ then MemSlot(2, dst, ReadOutcome(src, repeats, reply.ticks))
    else if kind == MEM_WRITE then
      var out := WriteOutcome(dst, repeats, reply.ticks);
      MemSlot(2, if out.err == 0 then reply.transfer(Written(dst, repeats)) else dst, out)
    else
      var out := CopyOutcome(src, dst, repeats, reply.ticks);
      if out.err == 0 then MemSlot(1, reply.transfer(Copied(src, dst)), out) else MemSlot(2, dst, out)
  }

  function MemVerify(src: seq<Byte>, s: MemSlot): MemSlot {
    if |src| == |s.dst| && Passes(src, s.dst) then s.(stage := 2)
    else s.(stage := 2, out := s.out.(err := AEE_EFAILED))
  }

  /** Where a worker's slot ends. */
  function MemResult(kind: int, src: seq<Byte>, dst: seq<Byte>, repeats: int, reply: MemReply): MemSlot
    requires |dst| <= MAX_SAMPLED
  {
    var s := MemCall(kind, src, dst, repeats, reply);
    if s.stage == 1 then MemVerify(src, s) else s
  }

  predicate Buffers(srcs: seq<seq<Byte>>, dsts: seq<seq<Byte>>, n: nat, len: nat) {
    && |srcs| == |dsts| == n && len <= MAX_SAMPLED
    && (forall i: nat :: i < n ==> |srcs[i]| == len && |dsts[i]| == len)
  }

  function MemNext(kind: int, src: seq<Byte>, repeats: int, reply: MemReply, s: MemSlot): MemSlot {
    if s.stage == 0 && |s.dst| <= MAX_SAMPLED then MemCall(kind, src, s.dst, repeats, reply)
    else if s.stage == 1 then MemVerify(src, s)
    else s.(stage := 2)
  }

  function MemWorkers(r: Round, n: nat, kind: int, srcs: seq<seq<Byte>>, dsts: seq<seq<Byte>>, repeats: int)
    : Workers<MemSlot>
  {
    Workers(n,
            (i: nat) => MemSlot(0, if i < |dsts| then dsts[i] else [], Outcome(0, 0, 0)),
            (i: nat, s) => MemNext(kind, if i < |srcs| then srcs[i] else [], repeats, r.mem(i), s),
            (i, s: MemSlot) => if s.stage >= 2 then 0 else 2 - s.stage,
            r.createErr)
  }

  function MemOutcomes(r: Round, n: nat, kind: int, srcs: seq<seq<Byte>>, dsts: seq<seq<Byte>>, repeats: int,
                       ghost len: nat) : (outs: seq<Outcome>)
    requires Buffers(srcs, dsts, n, len)
    ensures |outs| == n
  {
    seq(n, i requires 0 <= i < n => MemResult(kind, srcs[i], dsts[i], repeats, r.mem(i)).out)
  }

  /** The destinations after a round: those of the workers that came to exist are rewritten, the others untouched. */
  function MemBuffers(r: Round, n: nat, kind: int, srcs: seq<seq<Byte>>, dsts: seq<seq<Byte>>, repeats: int,
                      ghost len: nat) : (after: seq<seq<Byte>>)
    requires Buffers(srcs, dsts, n, len)
    ensures |after| == n
  {
    seq(n, i requires 0 <= i < n =>
      if Allocated(r, n) && i < Created(r, n) then MemResult(kind, srcs[i], dsts[i], repeats, r.mem(i)).dst
      else dsts[i])
  }

  lemma MemSound(r: Round, n: nat, kind: int, srcs: seq<seq<Byte>>, dsts: seq<seq<Byte>>, repeats: int)
    ensures Sound(MemWorkers(r, n, kind, srcs, dsts, repeats))
  {
    var w := MemWorkers(r, n, kind, srcs, dsts, repeats);
    forall i: nat, s: MemSlot | w.left(i, s) > 0
      ensures w.left(i, w.next(i, s)) < w.left(i, s)
    {
      var src := if i < |srcs| then srcs[i] else [];
      assert w.next(i, s) == MemNext(kind, src, repeats, r.mem(i), s);
    }
  }

  lemma MemFinishes(r: Round, n: nat, kind: int, srcs: seq<seq<Byte>>, dsts: seq<seq<Byte>>, repeats: int, i: nat,
                    len: nat)
    requires Buffers(srcs, dsts, n, len) && i < n
    requires Sound(MemWorkers(r, n, kind, srcs, dsts, repeats))
    ensures var w := MemWorkers(r, n, kind, srcs, dsts, repeats);
      Finish(w, i, w.init(i)) == MemResult(kind, srcs[i], dsts[i], repeats, r.mem(i))
  {
    var w := MemWorkers(r, n, kind, srcs, dsts, repeats);
    var s0 := w.init(i);
    var s1 := MemCall(kind, srcs[i], dsts[i], repeats, r.mem(i));
    assert w.next(i, s0) == s1;
    if s1.stage == 1 {
      assert w.next(i, s1) == MemVerify(srcs[i], s1);
      assert Finish(w, i, s1) == MemVerify(srcs[i], s1);
    } else {
      assert Finish(w, i, s1) == s1;
    }
    assert Finish(w, i, s0) == Finish(w, i, s1);
  }

  lemma UntouchedBuffers(r: Round, n: nat, kind: int, srcs: seq<seq<Byte>>, dsts: seq<seq<Byte>>, repeats: int,
                         len: nat)
    requires Buffers(srcs, dsts, n, len) && !Allocated(r, n)
    ensures MemBuffers(r, n, kind, srcs, dsts, repeats, len) == dsts
  {
  }

  /** Where a worker's slot stands after the joins, whether it came to exist or not. */
  ghost predicate SlotEnded(r: Round, n: nat, kind: int, src: seq<Byte>, dst: seq<Byte>, repeats: int, i: nat,
                            s: MemSlot)
    requires |dst| <= MAX_SAMPLED
  {
    && (i < Created(r, n) ==> s == MemResult(kind, src, dst, repeats, r.mem(i)))
    && (i >= Created(r, n) ==> s.dst == dst)
  }

  lemma SlotsCollected(r: Round, n: nat, kind: int, srcs: seq<seq<Byte>>, dsts: seq<seq<Byte>>, repeats: int,
                       len: nat, slots: seq<MemSlot>)
    requires Buffers(srcs, dsts, n, len) && |slots| == n && Allocated(r, n)
    requires forall i: nat :: i < n ==> SlotEnded(r, n, kind, srcs[i], dsts[i], repeats, i, slots[i])
    ensures seq(n, i requires 0 <= i < n => slots[i].dst) == MemBuffers(r, n, kind, srcs, dsts, repeats, len)
    ensures Created(r, n) == n ==>
              seq(n, i requires 0 <= i < n => slots[i].out) == MemOutcomes(r, n, kind, srcs, dsts, repeats, len)
  {
    hide MemResult;
    forall i: nat | i < n
      ensures slots[i].dst == MemBuffers(r, n, kind, srcs, dsts, repeats, len)[i]
      ensures Created(r, n) == n ==> slots[i].out == MemOutcomes(r, n, kind, srcs, dsts, repeats, len)[i]
    {
      assert SlotEnded(r, n, kind, srcs[i], dsts[i], repeats, i, slots[i]);
    }
  }

  method MeasureMemThreads(r: Round, n: nat, kind: int, srcs: seq<seq<Byte>>, dsts: seq<seq<Byte>>, repeats: int,
                           ghost len: nat) returns (m: Measured, after: seq<seq<Byte>>)
    requires n >= 1 && Buffers(srcs, dsts, n, len)
    ensures m == Aggregate(r, n, repeats, MemOutcomes(r, n, kind, srcs, dsts, repeats, len))
    ensures Concluded(r, n, repeats, MemOutcomes(r, n, kind, srcs, dsts, repeats, len), m)
    ensures after == MemBuffers(r, n, kind, srcs, dsts, repeats, len)
  {
    hide MemResult, Finish, MemOutcomes, MemBuffers, Concluded;
    AggregateConcludes(r, n, repeats, MemOutcomes(r, n, kind, srcs, dsts, repeats, len));
    if !r.argsAllocated || (n > 1 && !r.threadsAllocated) {
      assert !Allocated(r, n);
      UntouchedBuffers(r, n, kind, srcs, dsts, repeats, len);
      return Failed(-ENOMEM), dsts;
    }
    var slots: seq<MemSlot>;
    var createErr := 0;
    var w := MemWorkers(r, n, kind, srcs, dsts, repeats);
    MemSound(r, n, kind, srcs, dsts, repeats);
    if n == 1 {
      var slot := RunAlone(w, 0);
      slots := [slot];
    } else {
      var machine := RunThreads(w);
      createErr := machine.err;
      slots := machine.slots;
    }
    forall i: nat | i < n
      ensures SlotEnded(r, n, kind, srcs[i], dsts[i], repeats, i, slots[i])
    {
      MemFinishes(r, n, kind, srcs, dsts, repeats, i, len);
    }
    var outs := seq(n, i requires 0 <= i < n => slots[i].out);
    after := seq(n, i requires 0 <= i < n => slots[i].dst);
    SlotsCollected(r, n, kind, srcs, dsts, repeats, len, slots);
    m := Conclude(r, n, repeats, outs, createErr);
  }

  // ---------------------------------------------------------------------------------------------
  // What a reported memory row says about the buffers

  ghost predicate Faithful(reply: MemReply) {
    reply.err == 0 && forall b: seq<Byte> :: reply.transfer(b) == b
  }

  /** A faithful copy over whole vectors is never rejected, and leaves the destination equal to the source. */
  lemma FaithfulCopyAccepted(src: seq<Byte>, dst: seq<Byte>, repeats: int, reply: MemReply)
    requires |src| == |dst| <= MAX_SAMPLED && |src| % VECTOR_BYTES == 0 && |src| > 0 && repeats > 0
    requires Faithful(reply)
    ensures var s := MemResult(MEM_COPY, src, dst, repeats, reply);
      s.out == CopyOutcome(src, dst, repeats, reply.ticks) && s.out.err == 0 && s.dst == src
  {
    CopyIsExact(src, dst);
    EqualBuffersPass(src, src);
  }

  /**
   * If a copy row is reported at all, then in every thread at most |src| minus the probed positions
   * of the destination differ from the source, whatever the transfers did.
   */
  lemma ReportedCopyBound(r: Round, n: nat, srcs: seq<seq<Byte>>, dsts: seq<seq<Byte>>, repeats: int, i: nat, len: nat)
    requires Buffers(srcs, dsts, n, len) && i < n && len > 0
    requires RoundKeepsLengths(r)
    requires Aggregate(r, n, repeats, MemOutcomes(r, n, MEM_COPY, srcs, dsts, repeats, len)).Totals?
    ensures var after := MemBuffers(r, n, MEM_COPY, srcs, dsts, repeats, len);
      |after[i]| == len && |Mismatches(srcs[i], after[i])| <= len - DistinctProbes(len)
  {
    var outs := MemOutcomes(r, n, MEM_COPY, srcs, dsts, repeats, len);
    assert outs[i].err == 0;
    var s := MemResult(MEM_COPY, srcs[i], dsts[i], repeats, r.mem(i));
    var call := MemCall(MEM_COPY, srcs[i], dsts[i], repeats, r.mem(i));
    assert call.stage == 1;
    assert s.dst == r.mem(i).transfer(Copied(srcs[i], dsts[i]));
    assert Passes(srcs[i], s.dst);
    if |Mismatches(srcs[i], s.dst)| > len - DistinctProbes(len) {
      ManyMismatchesRejected(srcs[i], s.dst);
    }
  }
}
