/** The rows of successful rounds, in terms of what the outside world answered each worker. */
module RoundRows {
  import opened Words
  import opened Results
  import opened Errors
  import opened Checksum
  import opened Vectors
  import opened ComputeKernels
  import opened MemKernels
  import opened CopyVerify
  import opened Measure

  /** The memory for the round is there and every worker could be created. */
  ghost predicate RoundRuns(r: Round, n: nat) {
    r.argsAllocated && (n > 1 ==> r.threadsAllocated && forall i: nat :: i < n ==> r.createErr(i) == 0)
  }

  /** The cycles of the slowest of n workers. */
  ghost predicate SlowestOf(n: nat, ticks: nat -> DWord, cycles: DWord) {
    && (forall i: nat :: i < n ==> ticks(i) <= cycles)
    && (cycles == 0 || exists i: nat :: i < n && ticks(i) == cycles)
  }

  /** A row of n workers, each counting perThread, with these cycles and checksums. */
  ghost predicate RowOf(r: Round, n: nat, perThread: int, ticks: nat -> DWord, sums: seq<DWord>, m: Measured) {
    && m.Totals? && m.count == perThread * n && m.elapsed == r.elapsed
    && SlowestOf(n, ticks, m.cycles) && m.checksum == ThreadsChecksum(sums)
  }

  lemma RowElapsed(r: Round, n: nat, perThread: int, ticks: nat -> DWord, sums: seq<DWord>, m: Measured)
    requires RowOf(r, n, perThread, ticks, sums, m)
    ensures m.Totals? && m.elapsed == r.elapsed
  {
    hide SlowestOf, ThreadsChecksum;
  }

  /** The error of a round that is not reported, when worker i ends with error errs(i). */
  ghost predicate FailureOf(r: Round, n: nat, errs: nat -> int, m: Measured) {
    m.Failed? && m.err != 0 &&
    if !r.argsAllocated || (n > 1 && !r.threadsAllocated) then m.err == -ENOMEM
    else if n > 1 && exists i: nat :: i < n && r.createErr(i) != 0 then FirstError(n, r.createErr, m.err)
    else FirstError(n, errs, m.err)
  }

  /** The first error of n that is not zero. */
  ghost predicate FirstError(n: nat, errs: nat -> int, err: int) {
    exists k: nat :: k < n && errs(k) == err != 0 && forall i: nat :: i < k ==> errs(i) == 0
  }

  lemma SameErrors(r: Round, n: nat, errs: nat -> int, errs': nat -> int, m: Measured)
    requires forall i: nat :: i < n ==> errs(i) == errs'(i)
    ensures FailureOf(r, n, errs, m) ==> FailureOf(r, n, errs', m)
  {
    if FailureOf(r, n, errs, m) && FirstError(n, errs, m.err) {
      var k: nat :| k < n && errs(k) == m.err != 0 && forall i: nat :: i < k ==> errs(i) == 0;
      assert errs'(k) == m.err && forall i: nat :: i < k ==> errs'(i) == 0;
    }
  }

  lemma FailureFromOutcomes(r: Round, n: nat, perThread: int, outs: seq<Outcome>, errs: nat -> int)
    requires |outs| == n && Aggregate(r, n, perThread, outs).Failed?
    requires forall i: nat :: i < n ==> outs[i].err == errs(i)
    ensures FailureOf(r, n, errs, Aggregate(r, n, perThread, outs))
  {
    hide Aggregate, ThreadsChecksum;
    FailureIsVisible(r, n, perThread, outs);
    AggregateConcludes(r, n, perThread, outs);
    var m := Aggregate(r, n, perThread, outs);
    if r.argsAllocated && (n > 1 ==> r.threadsAllocated) {
      if n > 1 && exists i: nat :: i < n && r.createErr(i) != 0 {
        var k: nat :| k < n && r.createErr(k) != 0 && (forall i: nat :: i < k ==> r.createErr(i) == 0)
          && m == Failed(r.createErr(k));
        assert FirstError(n, r.createErr, m.err);
      } else {
        var k: nat :| k < n && outs[k].err != 0 && (forall i: nat :: i < k ==> outs[i].err == 0)
          && m == Failed(outs[k].err);
        assert errs(k) == m.err && forall i: nat :: i < k ==> errs(i) == 0;
      }
    }
  }

  lemma ReportedIff(r: Round, n: nat, perThread: int, outs: seq<Outcome>)
    requires |outs| == n
    ensures Aggregate(r, n, perThread, outs).Totals?
      <==> RoundRuns(r, n) && forall i: nat :: i < n ==> outs[i].err == 0
  {
    hide Aggregate, ThreadsChecksum;
    AggregateConcludes(r, n, perThread, outs);
  }

  lemma RowFromOutcomes(r: Round, n: nat, perThread: int, outs: seq<Outcome>, ticks: nat -> DWord, sums: seq<DWord>)
    requires |outs| == |sums| == n <= MAX_THREADS && 0 <= perThread <= INT_MAX
    requires Aggregate(r, n, perThread, outs).Totals?
    requires forall i: nat :: i < n && outs[i].err == 0 ==> outs[i].cycles == ticks(i) && outs[i].checksum == sums[i]
    ensures RowOf(r, n, perThread, ticks, sums, Aggregate(r, n, perThread, outs))
  {
    hide Aggregate, ThreadsChecksum;
    ReportedIff(r, n, perThread, outs);
    AggregateConcludes(r, n, perThread, outs);
    CountIsExact(perThread, n);
    assert seq(n, i requires 0 <= i < n => outs[i].checksum) == sums;
  }

  // ---------------------------------------------------------------------------------------------
  // Compute rounds

  /** What a worker's checksum must be: fixed by the count for int8, else that of its accumulators. */
  function ComputeSum(r: Round, i: nat, kernel: int, iterations: nat): DWord {
    if kernel == 2 || kernel == 3 then Int8Checksum(iterations) else AccumulatorChecksum(r.compute(i).float)
  }

  function ComputeSums(r: Round, n: nat, kernel: int, iterations: nat): (sums: seq<DWord>)
    ensures |sums| == n
  {
    seq(n, i requires 0 <= i < n => ComputeSum(r, i, kernel, iterations))
  }

  /** The error of a worker: its lost call's, or the refusal of the count or of the kernel. */
  function ComputeError(r: Round, i: nat, kernel: int, iterations: int): int {
    if r.compute(i).err != 0 then r.compute(i).err
    else if iterations <= 0 || kernel < 0 || kernel > 5 then AEE_EBADPARM else 0
  }

  lemma ComputeWorker(r: Round, i: nat, kernel: int, iterations: int)
    ensures var out := ComputeCall(r.compute(i), kernel, iterations);
      && (out.err == 0 <==> r.compute(i).err == 0 && 0 < iterations && 0 <= kernel <= 5)
      && (out.err == 0 ==> out.cycles == r.compute(i).ticks && out.checksum == ComputeSum(r, i, kernel, iterations))
      && out.err == ComputeError(r, i, kernel, iterations)
  {
    hide AccumulatorChecksum;
  }

  /** When a compute round is reported, and what its row then shows. */
  lemma ComputeRoundRow(r: Round, n: nat, kernel: int, iterations: int)
    requires 1 <= n <= MAX_THREADS && iterations <= INT_MAX
    ensures var m := Aggregate(r, n, iterations, ComputeOutcomes(r, n, kernel, iterations));
      && (m.Totals? <==> RoundRuns(r, n) && 0 < iterations && 0 <= kernel <= 5
                         && forall i: nat :: i < n ==> r.compute(i).err == 0)
      && (m.Totals? ==>
            RowOf(r, n, iterations, (i: nat) => r.compute(i).ticks, ComputeSums(r, n, kernel, iterations), m))
      && (m.Failed? ==> FailureOf(r, n, (i: nat) => ComputeError(r, i, kernel, iterations), m))
  {
    hide Aggregate, ComputeSum, ComputeCall, ComputeError, ThreadsChecksum, RowOf, FailureOf;
    var outs := ComputeOutcomes(r, n, kernel, iterations);
    ReportedIff(r, n, iterations, outs);
    forall i: nat | i < n
      ensures outs[i].err == 0 <==> r.compute(i).err == 0 && 0 < iterations && 0 <= kernel <= 5
      ensures outs[i].err == ComputeError(r, i, kernel, iterations)
      ensures outs[i].err == 0 ==>
        && outs[i].cycles == r.compute(i).ticks && outs[i].checksum == ComputeSum(r, i, kernel, iterations)
    {
      ComputeWorker(r, i, kernel, iterations);
      assert outs[i] == ComputeCall(r.compute(i), kernel, iterations);
    }
    if Aggregate(r, n, iterations, outs).Totals? {
      assert outs[0].err == 0;
      RowFromOutcomes(r, n, iterations, outs, (i: nat) => r.compute(i).ticks, ComputeSums(r, n, kernel, iterations));
    } else {
      FailureFromOutcomes(r, n, iterations, outs, (i: nat) => ComputeError(r, i, kernel, iterations));
    }
  }

  // ---------------------------------------------------------------------------------------------
  // Null calls

  /** A worker shows the exclusive or of what its last call returned. */
  function RpcSum(r: Round, i: nat, calls: nat): DWord {
    if calls == 0 then 0
    else
      var last := r.info(i)(calls - 1);
      XorDWord(XorDWord(last.cycles, last.overhead), last.hvxBytes)
  }

  function RpcSums(r: Round, n: nat, calls: nat): (sums: seq<DWord>)
    ensures |sums| == n
  {
    seq(n, i requires 0 <= i < n => RpcSum(r, i, calls))
  }

  /** The error of a worker's first call that does not return. */
  function RpcError(r: Round, i: nat, calls: nat): int {
    var k := FirstFailingCall(r.info(i), calls);
    if k < calls then r.info(i)(k).err else 0
  }

  function NoTicks(i: nat): DWord {
    0
  }

  /** When a null-call round is reported, and what its row then shows: no cycles are measured. */
  lemma RpcRoundRow(r: Round, n: nat, calls: nat)
    requires n <= MAX_THREADS && calls <= INT_MAX
    ensures var m := Aggregate(r, n, calls, RpcOutcomes(r, n, calls));
      && (m.Totals? <==> RoundRuns(r, n) && forall i: nat, t: nat :: i < n && t < calls ==> r.info(i)(t).err == 0)
      && (m.Totals? ==> RowOf(r, n, calls, NoTicks, RpcSums(r, n, calls), m))
      && (m.Failed? ==> FailureOf(r, n, (i: nat) => RpcError(r, i, calls), m))
  {
    hide Aggregate, XorDWord, ThreadsChecksum, RowOf, FailureOf;
    var outs := RpcOutcomes(r, n, calls);
    ReportedIff(r, n, calls, outs);
    forall i: nat | i < n
      ensures outs[i].err == 0 <==> forall t: nat :: t < calls ==> r.info(i)(t).err == 0
      ensures outs[i].err == RpcError(r, i, calls)
      ensures outs[i].err == 0 ==> outs[i].cycles == NoTicks(i) && outs[i].checksum == RpcSum(r, i, calls)
    {
      assert outs[i] == RpcOutcome(r.info(i), calls);
    }
    if Aggregate(r, n, calls, outs).Totals? {
      RowFromOutcomes(r, n, calls, outs, NoTicks, RpcSums(r, n, calls));
    } else {
      FailureFromOutcomes(r, n, calls, outs, (i: nat) => RpcError(r, i, calls));
    }
  }

  // ---------------------------------------------------------------------------------------------
  // Memory rounds over whole vectors

  ghost predicate WholeVectors(srcs: seq<seq<Byte>>, dsts: seq<seq<Byte>>, n: nat, len: nat) {
    Buffers(srcs, dsts, n, len) && len > 0 && len % VECTOR_BYTES == 0
  }

  /** A read sums the vectors of its source. */
  function ReadSums(srcs: seq<seq<Byte>>, n: nat, repeats: nat, len: nat): (sums: seq<DWord>)
    requires |srcs| == n && forall i: nat :: i < n ==> |srcs[i]| == len
    ensures |sums| == n
  {
    seq(n, i requires 0 <= i < n => VectorChecksum(StreamAccumulator(srcs[i], len / 128, repeats)))
  }

  /**
   * A read round is reported unless something outside fails; its row is fixed by the sources and the
   * cycles, and no destination is written.
   */
  lemma ReadRoundRow(r: Round, n: nat, srcs: seq<seq<Byte>>, dsts: seq<seq<Byte>>, repeats: int, len: nat)
    requires WholeVectors(srcs, dsts, n, len) && n <= MAX_THREADS && 0 < repeats <= INT_MAX
    ensures var m := Aggregate(r, n, repeats, MemOutcomes(r, n, MEM_READ, srcs, dsts, repeats, len));
      && (m.Totals? <==> RoundRuns(r, n) && forall i: nat :: i < n ==> r.mem(i).err == 0)
      && (m.Totals? ==> RowOf(r, n, repeats, (i: nat) => r.mem(i).ticks, ReadSums(srcs, n, repeats, len), m))
      && (m.Failed? ==> FailureOf(r, n, (i: nat) => r.mem(i).err, m))
    ensures MemBuffers(r, n, MEM_READ, srcs, dsts, repeats, len) == dsts
  {
    hide Aggregate, VectorChecksum, StreamAccumulator, ThreadsChecksum, RowOf, FailureOf, CopyOutcome, WriteOutcome;
    var outs := MemOutcomes(r, n, MEM_READ, srcs, dsts, repeats, len);
    ReportedIff(r, n, repeats, outs);
    forall i: nat | i < n
      ensures outs[i].err == r.mem(i).err
      ensures outs[i].err == 0 ==>
        && outs[i].cycles == r.mem(i).ticks
        && outs[i].checksum == VectorChecksum(StreamAccumulator(srcs[i], len / 128, repeats))
    {
      assert outs[i] == MemResult(MEM_READ, srcs[i], dsts[i], repeats, r.mem(i)).out;
    }
    if Aggregate(r, n, repeats, outs).Totals? {
      RowFromOutcomes(r, n, repeats, outs, (i: nat) => r.mem(i).ticks, ReadSums(srcs, n, repeats, len));
    } else {
      FailureFromOutcomes(r, n, repeats, outs, (i: nat) => r.mem(i).err);
    }
  }

  /** What every worker of a write must show: it depends on nothing but the length and the repeats. */
  function WriteSum(len: nat, repeats: nat): DWord
    requires len <= MAX_SAMPLED && repeats > 0
  {
    SamplesBounded(len);
    hide SampleCount, WriteWord;
    SamplesFit(SampleCount(len), WriteWord(repeats - 1));
    SampleCount(len) * (WriteWord(repeats - 1) % 0x100) + WriteWord(repeats - 1) / 0x100_0000
  }

  lemma SamplesFit(count: nat, w: Word)
    requires count <= 0x8_0000
    ensures 0 <= count * (w % 0x100) + w / 0x100_0000 < WORD64
  {
    var b := w % 0x100;
    assert 0 <= b < 0x100 && 0 <= w / 0x100_0000 < 0x100;
    MulBelow(count, b);
  }

  lemma MulBelow(count: nat, b: nat)
    requires count <= 0x8_0000 && b < 0x100
    ensures 0 <= count * b <= 0x8_0000 * 0x100
  {
    assert count * (0x100 - b) >= 0;
  }

  lemma SamplesBounded(len: nat)
    requires len <= MAX_SAMPLED
    ensures SampleCount(len) <= 0x8_0000
  {
  }

  function WriteSums(n: nat, repeats: nat, len: nat): (sums: seq<DWord>)
    requires len <= MAX_SAMPLED && repeats > 0
    ensures |sums| == n
  {
    seq(n, _ => WriteSum(len, repeats))
  }

  /** A destination filled with the word of the last pass, least significant byte first. */
  function FilledWith(len: nat, w: Word): (b: seq<Byte>)
    ensures |b| == len
  {
    seq(len, p requires 0 <= p < len => ByteOf(w, p % 4))
  }

  /**
   * A write round is reported unless something outside fails; its checksum depends on nothing else, and
   * every destination becomes what the transfer makes of the last pass's pattern.
   */
  lemma WriteRoundRow(r: Round, n: nat, srcs: seq<seq<Byte>>, dsts: seq<seq<Byte>>, repeats: int, len: nat)
    requires WholeVectors(srcs, dsts, n, len) && n <= MAX_THREADS && 0 < repeats <= INT_MAX
    ensures var m := Aggregate(r, n, repeats, MemOutcomes(r, n, MEM_WRITE, srcs, dsts, repeats, len));
      var after := MemBuffers(r, n, MEM_WRITE, srcs, dsts, repeats, len);
      && (m.Totals? <==> RoundRuns(r, n) && forall i: nat :: i < n ==> r.mem(i).err == 0)
      && (m.Totals? ==> RowOf(r, n, repeats, (i: nat) => r.mem(i).ticks, WriteSums(n, repeats, len), m))
      && (m.Totals? ==> forall i: nat :: i < n ==>
            after[i] == r.mem(i).transfer(FilledWith(len, (0x5a5a5a5a + (repeats - 1) * 0x01010101) % WORD32)))
      && (m.Failed? ==> FailureOf(r, n, (i: nat) => r.mem(i).err, m))
  {
    hide Aggregate, ThreadsChecksum, RowOf, FailureOf, ReadOutcome, CopyOutcome;
    var outs := MemOutcomes(r, n, MEM_WRITE, srcs, dsts, repeats, len);
    ReportedIff(r, n, repeats, outs);
    forall i: nat | i < n
      ensures outs[i].err == r.mem(i).err
      ensures outs[i].err == 0 ==> outs[i].cycles == r.mem(i).ticks && outs[i].checksum == WriteSum(len, repeats)
      ensures outs[i].err == 0 ==>
        MemResult(MEM_WRITE, srcs[i], dsts[i], repeats, r.mem(i)).dst
        == r.mem(i).transfer(FilledWith(len, (0x5a5a5a5a + (repeats - 1) * 0x01010101) % WORD32))
    {
      WriteWorker(srcs[i], dsts[i], repeats, r.mem(i));
    }
    if Aggregate(r, n, repeats, outs).Totals? {
      RowFromOutcomes(r, n, repeats, outs, (i: nat) => r.mem(i).ticks, WriteSums(n, repeats, len));
    } else {
      FailureFromOutcomes(r, n, repeats, outs, (i: nat) => r.mem(i).err);
    }
  }

  lemma WriteWorker(src: seq<Byte>, dst: seq<Byte>, repeats: int, reply: MemReply)
    requires |dst| <= MAX_SAMPLED && |dst| % VECTOR_BYTES == 0 && |dst| > 0 && repeats > 0
    ensures var s := MemResult(MEM_WRITE, src, dst, repeats, reply);
      && s.out.err == reply.err
      && (s.out.err == 0 ==> s.out.cycles == reply.ticks && s.out.checksum == WriteSum(|dst|, repeats))
      && (s.out.err == 0 ==>
            s.dst == reply.transfer(FilledWith(|dst|, (0x5a5a5a5a + (repeats - 1) * 0x01010101) % WORD32)))
  {
    WriteChecksumClosedForm(dst, repeats, reply.ticks);
    assert Written(dst, repeats) == FilledWith(|dst|, WriteWord(repeats - 1));
  }

  /** What a copying worker must show: the sum of its source's vectors and of its sampled bytes. */
  function CopySum(src: seq<Byte>, repeats: nat): DWord {
    (VectorChecksum(StreamAccumulator(src, |src| / 128, repeats)) + ByteChecksum(src)) % WORD64
  }

  function CopySums(srcs: seq<seq<Byte>>, n: nat, repeats: nat): (sums: seq<DWord>)
    requires |srcs| == n
    ensures |sums| == n
  {
    seq(n, i requires 0 <= i < n => CopySum(srcs[i], repeats))
  }

  /** The error of a worker: its lost or refused call's, or the verdict of the verifier. */
  function MemError(r: Round, i: nat, kind: int, srcs: seq<seq<Byte>>): int {
    if r.mem(i).err != 0 then r.mem(i).err
    else if kind == 2 && i < |srcs| && srcs[i] != [] && !CopyArrives(srcs[i], r.mem(i)) then AEE_EFAILED else 0
  }

  /**
   * A copy round is reported unless something outside fails or some probed byte did not arrive; its
   * checksum is fixed by the sources, and every destination becomes what the transfer makes of its source.
   */
  lemma CopyRoundRow(r: Round, n: nat, srcs: seq<seq<Byte>>, dsts: seq<seq<Byte>>, repeats: int, len: nat)
    requires WholeVectors(srcs, dsts, n, len) && n <= MAX_THREADS && 0 < repeats <= INT_MAX && RoundKeepsLengths(r)
    ensures var m := Aggregate(r, n, repeats, MemOutcomes(r, n, MEM_COPY, srcs, dsts, repeats, len));
      var after := MemBuffers(r, n, MEM_COPY, srcs, dsts, repeats, len);
      && (m.Totals? <==>
            RoundRuns(r, n) && forall i: nat :: i < n ==> r.mem(i).err == 0 && CopyArrives(srcs[i], r.mem(i)))
      && (m.Totals? ==> RowOf(r, n, repeats, (i: nat) => r.mem(i).ticks, CopySums(srcs, n, repeats), m))
      && (m.Totals? ==> forall i: nat :: i < n ==> after[i] == r.mem(i).transfer(srcs[i]))
      && (m.Failed? ==> FailureOf(r, n, (i: nat) => MemError(r, i, MEM_COPY, srcs), m))
  {
    hide Aggregate, ThreadsChecksum, RowOf, FailureOf, ReadOutcome, WriteOutcome, CopySum, CopyArrives;
    var outs := MemOutcomes(r, n, MEM_COPY, srcs, dsts, repeats, len);
    ReportedIff(r, n, repeats, outs);
    forall i: nat | i < n
      ensures outs[i].err == MemError(r, i, MEM_COPY, srcs)
      ensures outs[i].err == 0 <==> r.mem(i).err == 0 && CopyArrives(srcs[i], r.mem(i))
      ensures outs[i].err == 0 ==> outs[i].cycles == r.mem(i).ticks && outs[i].checksum == CopySum(srcs[i], repeats)
      ensures outs[i].err == 0 ==>
        MemResult(MEM_COPY, srcs[i], dsts[i], repeats, r.mem(i)).dst == r.mem(i).transfer(srcs[i])
    {
      CopyWorker(srcs[i], dsts[i], repeats, r.mem(i));
    }
    if Aggregate(r, n, repeats, outs).Totals? {
      RowFromOutcomes(r, n, repeats, outs, (i: nat) => r.mem(i).ticks, CopySums(srcs, n, repeats));
    } else {
      FailureFromOutcomes(r, n, repeats, outs, (i: nat) => MemError(r, i, MEM_COPY, srcs));
    }
  }

  /** Every probed byte of the source arrives. */
  predicate CopyArrives(src: seq<Byte>, reply: MemReply)
    requires |src| > 0
  {
    var arrived := reply.transfer(src);
    |arrived| == |src| && forall i: nat :: i < 4096 && i < |src| ==> AgreeAt(src, arrived, i)
  }

  lemma CopyWorker(src: seq<Byte>, dst: seq<Byte>, repeats: int, reply: MemReply)
    requires |src| == |dst| <= MAX_SAMPLED && |dst| % VECTOR_BYTES == 0 && |dst| > 0 && repeats > 0
    ensures var s := MemResult(MEM_COPY, src, dst, repeats, reply);
      && s.out.err == (if reply.err != 0 then reply.err else if !CopyArrives(src, reply) then AEE_EFAILED else 0)
      && (s.out.err == 0 ==> s.out.cycles == reply.ticks && s.out.checksum == CopySum(src, repeats))
      && (s.out.err == 0 ==> s.dst == reply.transfer(src))
  {
    hide Passes, AgreeAt, VectorChecksum, StreamAccumulator, ByteChecksum;
    CopyIsExact(src, dst);
    if |reply.transfer(src)| == |src| {
      PassesIff(src, reply.transfer(src));
    }
    assert VECTOR_BYTES * CopyVectors(src, dst) == |src| && src[..|src|] == src;
  }

  // ---------------------------------------------------------------------------------------------
  // All memory rounds alike

  /** Nothing outside fails, and of a copy every probed byte arrives. */
  ghost predicate MemSucceeds(r: Round, n: nat, kind: int, srcs: seq<seq<Byte>>)
    requires |srcs| == n && forall i: nat :: i < n ==> |srcs[i]| > 0
  {
    RoundRuns(r, n) && forall i: nat :: i < n ==> r.mem(i).err == 0 && (kind == 2 ==> CopyArrives(srcs[i], r.mem(i)))
  }

  /** What the workers of a round must show. */
  function MemSums(kind: int, srcs: seq<seq<Byte>>, n: nat, repeats: nat, len: nat): (sums: seq<DWord>)
    requires |srcs| == n && (forall i: nat :: i < n ==> |srcs[i]| == len) && len <= MAX_SAMPLED && repeats > 0
    ensures |sums| == n
  {
    if kind == 0 then ReadSums(srcs, n, repeats, len)
    else if kind == 1 then WriteSums(n, repeats, len)
    else CopySums(srcs, n, repeats)
  }

  /** What the destinations become: untouched by a read, else what the transfer makes of the right bytes. */
  ghost predicate MemLeaves(r: Round, n: nat, kind: int, srcs: seq<seq<Byte>>, dsts: seq<seq<Byte>>, repeats: int,
                            len: nat, after: seq<seq<Byte>>)
    requires |srcs| == |dsts| == |after| == n
  {
    forall i: nat :: i < n ==>
      after[i] == if kind == 0 then dsts[i]
                  else if kind == 1 then
                    r.mem(i).transfer(FilledWith(len, (0x5a5a5a5a + (repeats - 1) * 0x01010101) % WORD32))
                  else r.mem(i).transfer(srcs[i])
  }

  /** When a memory round is reported, and what it then shows and leaves. */
  lemma MemRoundRow(r: Round, n: nat, kind: int, srcs: seq<seq<Byte>>, dsts: seq<seq<Byte>>, repeats: int, len: nat)
    requires 0 <= kind <= 2 && WholeVectors(srcs, dsts, n, len) && n <= MAX_THREADS && 0 < repeats <= INT_MAX
    requires RoundKeepsLengths(r)
    ensures var m := Aggregate(r, n, repeats, MemOutcomes(r, n, kind, srcs, dsts, repeats, len));
      && (m.Totals? <==> MemSucceeds(r, n, kind, srcs))
      && (m.Totals? ==>
            && RowOf(r, n, repeats, (i: nat) => r.mem(i).ticks, MemSums(kind, srcs, n, repeats, len), m)
            && MemLeaves(r, n, kind, srcs, dsts, repeats, len, MemBuffers(r, n, kind, srcs, dsts, repeats, len)))
      && (m.Failed? ==> FailureOf(r, n, (i: nat) => MemError(r, i, kind, srcs), m))
      && (kind == 0 ==> MemBuffers(r, n, kind, srcs, dsts, repeats, len) == dsts)
  {
    hide Aggregate, RowOf, MemOutcomes, MemBuffers, ReadSums, WriteSums, CopySums, CopyArrives;
    var m := Aggregate(r, n, repeats, MemOutcomes(r, n, kind, srcs, dsts, repeats, len));
    if kind == 0 {
      ReadRoundRow(r, n, srcs, dsts, repeats, len);
      SameErrors(r, n, (i: nat) => r.mem(i).err, (i: nat) => MemError(r, i, kind, srcs), m);
    } else if kind == 1 {
      WriteRoundRow(r, n, srcs, dsts, repeats, len);
      SameErrors(r, n, (i: nat) => r.mem(i).err, (i: nat) => MemError(r, i, kind, srcs), m);
    } else {
      CopyRoundRow(r, n, srcs, dsts, repeats, len);
    }
  }
}
