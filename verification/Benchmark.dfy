/**
 * The runs of module Scheduler over the measurements of module Measure: what the rows of a whole run
 * say about each other and about the buffers.
 */
module Benchmark {
  import opened Words
  import opened Results
  import opened Checksum
  import opened Vectors
  import opened ComputeKernels
  import opened MemKernels
  import opened CopyVerify
  import opened Measure
  import opened RoundRows
  import opened Scheduler
  import opened ScenarioFilter

  const GROUP_INT8: Group := 1

  /** The compute table of the host, before the filter is applied. */
  const COMPUTE_SCENARIOS: seq<Scenario> := [
    Scenario("fp32-vmuladd", KERNEL_FP32, 10000, GROUP_NONE, false),
    Scenario("fp16-vmpyacc", KERNEL_FP16, 10000, GROUP_NONE, false),
    Scenario("qf16-vmpyadd", KERNEL_QF16, 10000, GROUP_NONE, false),
    Scenario("qf32-vmpyadd", KERNEL_QF32, 10000, GROUP_NONE, false),
    Scenario("int8-vrmpyacc", KERNEL_INT8_FIXED, 10000, GROUP_INT8, false),
    Scenario("int8-vrmpy-add", KERNEL_INT8_ADD_FIXED, 10000, GROUP_INT8, false)]

  // ---------------------------------------------------------------------------------------------
  // Compute measurements

  function ComputeRound(r: Round, n: nat, kernel: int, iterations: int): Measured {
    Aggregate(r, n, iterations, ComputeOutcomes(r, n, kernel, iterations))
  }

  /** The oracle of the scheduler, with one round of the outside world for each measurement. */
  function ComputeMeasurements(env: nat -> Round, n: nat, table: seq<Scenario>): ComputeOracle {
    (call: nat, index: nat, iterations: int) =>
      if index < |table| then ComputeRound(env(call), n, table[index].kernel, iterations) else Failed(1)
  }

  /** The DSP refuses a count that is not positive, so such a round never succeeds. */
  lemma NonPositiveFails(r: Round, n: nat, kernel: int, iterations: int)
    requires n >= 1 && iterations <= 0
    ensures ComputeRound(r, n, kernel, iterations).Failed?
  {
    var outs := ComputeOutcomes(r, n, kernel, iterations);
    var out := ComputeCall(r.compute(0), kernel, iterations);
    assert out.err != 0;
    assert outs[0] == out;
  }

  lemma ComputeMeasurementsSound(env: nat -> Round, n: nat, table: seq<Scenario>)
    requires n >= 1
    ensures SoundOracle(ComputeMeasurements(env, n, table))
  {
    var measure := ComputeMeasurements(env, n, table);
    forall call: nat, index: nat, iterations: int
      ensures measure(call, index, iterations).Totals? ==> iterations > 0
      ensures measure(call, index, iterations).Failed? ==> measure(call, index, iterations).err != 0
    {
      if index < |table| {
        var kernel := table[index].kernel;
        FailureIsVisible(env(call), n, iterations, ComputeOutcomes(env(call), n, kernel, iterations));
        if iterations <= 0 {
          NonPositiveFails(env(call), n, kernel, iterations);
        }
      }
    }
  }

  predicate Int8Kernel(kernel: int) {
    kernel == KERNEL_INT8_FIXED || kernel == KERNEL_INT8_ADD_FIXED
  }

  function Repeated(c: DWord, n: nat): (cs: seq<DWord>)
    ensures |cs| == n
  {
    seq(n, _ => c)
  }

  lemma Int8CallChecksum(reply: ComputeReply, kernel: int, iterations: nat)
    requires iterations > 0 && Int8Kernel(kernel) && ComputeCall(reply, kernel, iterations).err == 0
    ensures ComputeCall(reply, kernel, iterations).checksum == Int8Checksum(iterations)
  {
  }

  lemma UniformChecksum(r: Round, n: nat, perThread: int, outs: seq<Outcome>, c: DWord)
    requires |outs| == n && Aggregate(r, n, perThread, outs).Totals?
    requires forall i: nat :: i < n && outs[i].err == 0 ==> outs[i].checksum == c
    ensures Aggregate(r, n, perThread, outs).checksum == ThreadsChecksum(Repeated(c, n))
  {
    assert Checksums(outs) == Repeated(c, n);
  }

  /**
   * The checksum of a reported int8 row in closed form: both kernels, any replies, any interleaving of
   * the workers.
   */
  lemma Int8RowChecksum(r: Round, n: nat, kernel: int, iterations: nat)
    requires iterations > 0 && Int8Kernel(kernel) && ComputeRound(r, n, kernel, iterations).Totals?
    ensures ComputeRound(r, n, kernel, iterations).checksum == ThreadsChecksum(Repeated(Int8Checksum(iterations), n))
  {
    var outs := ComputeOutcomes(r, n, kernel, iterations);
    forall i: nat | i < n && outs[i].err == 0
      ensures outs[i].checksum == Int8Checksum(iterations)
    {
      assert outs[i] == ComputeCall(r.compute(i), kernel, iterations);
      Int8CallChecksum(r.compute(i), kernel, iterations);
    }
    UniformChecksum(r, n, iterations, outs, Int8Checksum(iterations));
  }

  function Int8Total(n: nat, iterations: int): DWord {
    if iterations <= 0 then 0 else ThreadsChecksum(Repeated(Int8Checksum(iterations), n))
  }

  lemma Int8Totals(env: nat -> Round, n: nat, table: seq<Scenario>, call: nat, index: nat, iterations: int)
    requires n >= 1 && index < |table| && Int8Kernel(table[index].kernel)
    requires ComputeMeasurements(env, n, table)(call, index, iterations).Totals?
    ensures var m := ComputeMeasurements(env, n, table)(call, index, iterations);
      m.checksum == Int8Total(n, iterations) && m.count == TotalCount(iterations, n)
  {
    if iterations <= 0 {
      NonPositiveFails(env(call), n, table[index].kernel, iterations);
    } else {
      Int8RowChecksum(env(call), n, table[index].kernel, iterations);
    }
  }

  predicate Int8Row(table: seq<Scenario>, row: Row) {
    row.ComputeRow? && row.index < |table| && Int8Kernel(table[row.index].kernel) && row.totals.Totals?
  }

  predicate SameTotals(a: Measured, b: Measured)
    requires a.Totals? && b.Totals?
  {
    a.checksum == b.checksum && a.count == b.count
  }

  /** Any two int8 rows from position from on show the same checksum and the same count. */
  ghost predicate Int8RowsAgree(table: seq<Scenario>, rows: seq<Row>, from: nat) {
    forall p: nat, q: nat ::
      from <= p < |rows| && from <= q < |rows| && Int8Row(table, rows[p]) && Int8Row(table, rows[q])
      ==> SameTotals(rows[p].totals, rows[q].totals)
  }

  /** The int8 scenarios of a table are all in the int8 group, as in the host's table. */
  predicate Int8Grouped(table: seq<Scenario>) {
    forall i: nat :: i < |table| && Int8Kernel(table[i].kernel) ==> table[i].group == GROUP_INT8
  }

  lemma SharedInt8Row(env: nat -> Round, n: nat, table: seq<Scenario>, row: Row, counts: GroupCounts)
    requires n >= 1 && Int8Grouped(table) && Int8Row(table, row)
    requires SharedRow(ComputeMeasurements(env, n, table), table, row, counts)
    ensures row.totals.checksum == Int8Total(n, counts.count(GROUP_INT8))
    ensures row.totals.count == TotalCount(counts.count(GROUP_INT8), n)
  {
    var measure := ComputeMeasurements(env, n, table);
    var iterations := counts.count(GROUP_INT8);
    assert MeasuredWith(measure, row, iterations);
    var call: nat :| row.totals == measure(call, row.index, iterations);
    Int8Totals(env, n, table, call, row.index, iterations);
  }

  /** Rows measured with one count per group: their int8 rows agree. */
  lemma SharedRowsAgree(env: nat -> Round, n: nat, table: seq<Scenario>, rows: seq<Row>, from: nat, counts: GroupCounts)
    requires n >= 1 && Int8Grouped(table) && Shared(ComputeMeasurements(env, n, table), table, rows, from, counts)
    ensures Int8RowsAgree(table, rows, from)
  {
    forall p: nat | from <= p < |rows| && Int8Row(table, rows[p])
      ensures rows[p].totals.checksum == Int8Total(n, counts.count(GROUP_INT8))
      ensures rows[p].totals.count == TotalCount(counts.count(GROUP_INT8), n)
    {
      assert SharedRow(ComputeMeasurements(env, n, table), table, rows[p], counts);
      SharedInt8Row(env, n, table, rows[p], counts);
    }
  }

  // ---------------------------------------------------------------------------------------------
  // What the printed rows show

  /** Nothing outside fails in a compute round. */
  ghost predicate ComputeSucceeds(r: Round, n: nat) {
    RoundRuns(r, n) && forall i: nat :: i < n ==> r.compute(i).err == 0
  }

  /** Something outside fails in a compute round, with this error. */
  ghost predicate ComputeFails(r: Round, n: nat, err: int) {
    !ComputeSucceeds(r, n) && FailureOf(r, n, (i: nat) => r.compute(i).err, Failed(err))
  }

  /** The row of a successful round: its count, cycles and checksum are those of its own workers. */
  ghost predicate ComputeShows(r: Round, n: nat, kernel: int, iterations: int, m: Measured) {
    && iterations > 0 && ComputeSucceeds(r, n)
    && RowOf(r, n, iterations, (i: nat) => r.compute(i).ticks, ComputeSums(r, n, kernel, iterations), m)
  }

  lemma MeasurementShows(env: nat -> Round, n: nat, table: seq<Scenario>, call: nat, index: nat, iterations: int)
    requires 1 <= n <= MAX_THREADS && index < |table| && iterations <= INT_MAX
    ensures var m := ComputeMeasurements(env, n, table)(call, index, iterations);
      && (m.Totals? ==> ComputeShows(env(call), n, table[index].kernel, iterations, m))
      && (iterations > 0 && 0 <= table[index].kernel <= 5 && m.Failed? ==> ComputeFails(env(call), n, m.err))
  {
    hide RowOf, FailureOf, Aggregate, ComputeOutcomes, ComputeSums;
    var kernel := table[index].kernel;
    ComputeRoundRow(env(call), n, kernel, iterations);
    if iterations > 0 && 0 <= kernel <= 5 {
      SameErrors(env(call), n, (i: nat) => ComputeError(env(call), i, kernel, iterations),
                 (i: nat) => env(call).compute(i).err, ComputeMeasurements(env, n, table)(call, index, iterations));
    }
  }

  /** Doubled counts stay in range, whatever they started from. */
  lemma CountInRange(start: int, k: nat)
    requires start <= INT_MAX && (k > 0 ==> Doubled(start, k - 1) <= MAX_COMPUTE_ITERATIONS)
    ensures Doubled(start, k) <= INT_MAX && (start > 0 ==> Doubled(start, k) > 0)
  {
    DoubledIsMultiple(start, k);
  }

  /** Every entry can be measured: a known kernel, and a start in range, which is positive. */
  predicate Measurable(table: seq<Scenario>) {
    forall i: nat :: i < |table| ==> 0 <= table[i].kernel <= 5 && 0 < table[i].start <= INT_MAX
  }

  /** The row is that of a round of this run, measured with the kernel of its own scenario. */
  ghost predicate RowShows(env: nat -> Round, n: nat, table: seq<Scenario>, row: Row, from: nat, to: nat) {
    row.ComputeRow? && row.index < |table| && exists call: nat, iterations: int ::
      from <= call < to && ComputeShows(env(call), n, table[row.index].kernel, iterations, row.totals)
  }

  lemma OwnRowShows(env: nat -> Round, opt: Options, table: seq<Scenario>, row: Row, call: nat, k: nat, from: nat,
                    to: nat)
    requires ValidOptions(opt) && Measurable(table) && row.ComputeRow? && row.index < |table|
    requires OwnRow(ComputeMeasurements(env, opt.threads, table), opt, table, row, call, k)
    requires from <= call && call + k < to
    ensures RowShows(env, opt.threads, table, row, from, to)
  {
    hide ComputeShows, Doubled, ComputeMeasurements;
    var measure := ComputeMeasurements(env, opt.threads, table);
    var start := if opt.iterations > 0 then opt.iterations else table[row.index].start;
    if k > 0 {
      assert ShortRound(measure, opt, table, row.index, call, k - 1);
    }
    CountInRange(start, k);
    MeasurementShows(env, opt.threads, table, call + k, row.index, Doubled(start, k));
  }

  lemma GroupRowShows(env: nat -> Round, opt: Options, table: seq<Scenario>, row: Row, call: nat, k: nat, q: nat,
                      from: nat, to: nat)
    requires ValidOptions(opt) && Measurable(table) && row.ComputeRow? && row.index < |table|
    requires GroupRow(ComputeMeasurements(env, opt.threads, table), opt, table, row, call, k, q)
    requires from <= call && call + (k + 1) * MemberCount(table, row.index) <= to
    ensures RowShows(env, opt.threads, table, row, from, to)
  {
    hide ComputeShows, Doubled, ComputeMeasurements, Members, GroupStart, AllLongEnough;
    var measure, group := ComputeMeasurements(env, opt.threads, table), table[row.index].group;
    var ms, start := Members(table, group, |table|), GroupStart(opt, table, group, |table|);
    GroupStartInRange(opt, table, group, |table|);
    if k > 0 {
      assert GroupEscalates(measure, opt, ms, call, start, k - 1);
    }
    CountInRange(start, k);
    assert (k + 1) * |ms| == k * |ms| + |ms|;
    var last := GroupRows(measure, ms, call + k * |ms|, Doubled(start, k));
    assert last[q].totals == measure(call + k * |ms| + q, row.index, Doubled(start, k)) && last[q].totals.Totals?;
    MeasurementShows(env, opt.threads, table, call + k * |ms| + q, row.index, Doubled(start, k));
  }

  lemma TellingRowShows(env: nat -> Round, opt: Options, table: seq<Scenario>, row: Row, from: nat, to: nat)
    requires ValidOptions(opt) && Measurable(table)
    requires RowTells(ComputeMeasurements(env, opt.threads, table), opt, table, row, from, to)
    ensures RowShows(env, opt.threads, table, row, from, to)
  {
    hide OwnRow, GroupRow, RowShows, MemberCount;
    var measure := ComputeMeasurements(env, opt.threads, table);
    if table[row.index].group == GROUP_NONE {
      var call: nat, k: nat :| from <= call && call + k < to && OwnRow(measure, opt, table, row, call, k);
      OwnRowShows(env, opt, table, row, call, k, from, to);
    } else {
      var call: nat, k: nat, q: nat :| from <= call && call + (k + 1) * MemberCount(table, row.index) <= to
        && GroupRow(measure, opt, table, row, call, k, q);
      GroupRowShows(env, opt, table, row, call, k, q, from, to);
    }
  }

  /** A run that stops does so because something outside failed in its last round. */
  lemma StoppedByRound(env: nat -> Round, opt: Options, table: seq<Scenario>, err: int, from: nat, to: nat)
    requires ValidOptions(opt) && Measurable(table)
    requires StoppedBy(ComputeMeasurements(env, opt.threads, table), opt, table, err, from, to)
    ensures from < to && ComputeFails(env(to - 1), opt.threads, err)
  {
    hide OwnFailure, GroupFailure, ComputeFails;
    var measure := ComputeMeasurements(env, opt.threads, table);
    if index: nat, k: nat :| OwnFailure(measure, opt, table, index, k, err, from, to) {
      OwnFailureShows(env, opt, table, index, k, err, from, to);
    } else {
      var group: Group, call: nat, k: nat, p: nat :|
        GroupFailure(measure, opt, table, group, call, k, p, err, from, to);
      GroupFailureShows(env, opt, table, group, call, k, p, err, from, to);
    }
  }

  lemma OwnFailureShows(env: nat -> Round, opt: Options, table: seq<Scenario>, index: nat, k: nat, err: int, from: nat,
                        to: nat)
    requires ValidOptions(opt) && Measurable(table)
    requires OwnFailure(ComputeMeasurements(env, opt.threads, table), opt, table, index, k, err, from, to)
    ensures from < to && ComputeFails(env(to - 1), opt.threads, err)
  {
    hide ComputeShows, ComputeFails, Doubled, ComputeMeasurements;
    var measure := ComputeMeasurements(env, opt.threads, table);
    var start := if opt.iterations > 0 then opt.iterations else table[index].start;
    if k > 0 {
      assert ShortRound(measure, opt, table, index, to - k - 1, k - 1);
    }
    CountInRange(start, k);
    MeasurementShows(env, opt.threads, table, to - 1, index, Doubled(start, k));
  }

  lemma GroupFailureShows(env: nat -> Round, opt: Options, table: seq<Scenario>, group: Group, call: nat, k: nat,
                          p: nat, err: int, from: nat, to: nat)
    requires ValidOptions(opt) && Measurable(table)
    requires GroupFailure(ComputeMeasurements(env, opt.threads, table), opt, table, group, call, k, p, err, from, to)
    ensures from < to && ComputeFails(env(to - 1), opt.threads, err)
  {
    hide ComputeShows, ComputeFails, Doubled, ComputeMeasurements, Members, GroupStart, AllLongEnough;
    var measure := ComputeMeasurements(env, opt.threads, table);
    var ms, start := Members(table, group, |table|), GroupStart(opt, table, group, |table|);
    GroupStartInRange(opt, table, group, |table|);
    if k > 0 {
      assert GroupEscalates(measure, opt, ms, call, start, k - 1);
    }
    CountInRange(start, k);
    assert k * |ms| >= 0;
    MembersAre(table, group, |table|, p);
    MeasurementShows(env, opt.threads, table, to - 1, ms[p], Doubled(start, k));
  }

  /** One ungrouped scenario: its row is that of the last round, and only a failure in that round prevents it. */
  method RunComputeScenario<S(!new)>(host: Host<S>, env: nat -> Round, index: nat)
    returns (err: int, ghost k: nat, ghost iterations: int)
    requires host.Ready() && host.compute == ComputeMeasurements(env, host.opt.threads, host.table)
    requires index < |host.table| && Measurable(host.table)
    modifies host`calls, host`rows
    ensures host.calls == old(host.calls) + k + 1
    ensures iterations == Doubled(if host.opt.iterations > 0 then host.opt.iterations else host.table[index].start, k)
    ensures err == 0 <==> ComputeSucceeds(env(host.calls - 1), host.opt.threads)
    ensures err == 0 ==> exists m: Measured ::
      && host.rows == old(host.rows) + [ComputeRow(index, m)]
      && ComputeShows(env(host.calls - 1), host.opt.threads, host.table[index].kernel, iterations, m)
    ensures err != 0 ==> host.rows == old(host.rows) && ComputeFails(env(host.calls - 1), host.opt.threads, err)
  {
    hide Doubled, Escalated, ComputeMeasurements, SoundOracle, SoundRpc, SoundMem, ComputeShows, ComputeSucceeds,
         FailureOf;
    ghost var base, rows, n := host.calls, host.rows, host.opt.threads;
    err, k := host.RunCompute(index);
    ghost var start := StartOf(host.opt, host.table[index]);
    iterations := Doubled(start, k);
    ghost var m := host.compute(base + k, index, iterations);
    DoubledIsMultiple(start, k);
    MeasurementShows(env, n, host.table, base + k, index, iterations);
    ShownSucceeds(env(base + k), n, host.table[index].kernel, iterations, m);
    assert err == 0 ==> host.rows == rows + [ComputeRow(index, m)];
  }

  lemma ShownSucceeds(r: Round, n: nat, kernel: int, iterations: int, m: Measured)
    ensures ComputeShows(r, n, kernel, iterations, m) ==> ComputeSucceeds(r, n)
  {
  }

  lemma HostTableMeasurable(table: seq<Scenario>)
    requires HostTable(table)
    ensures Measurable(table) && Int8Grouped(table)
  {
  }

  /** The compute table of the host, with any filter applied. */
  predicate HostTable(table: seq<Scenario>) {
    && |table| == |COMPUTE_SCENARIOS|
    && forall i: nat :: i < |table| ==> table[i] == COMPUTE_SCENARIOS[i].(selected := table[i].selected)
  }

  /**
   * The compute part of a run of the host's own table. Every row printed is that of a round of this run,
   * measured with the kernel of its scenario. Without an error every selected scenario is printed exactly
   * once and no other, and the printed int8 rows are directly comparable: same count and same checksum,
   * whatever the timings, the replies, the number of threads and their schedule. An error appears only
   * if something outside failed in the last round.
   */
  method RunComputeScenarios<S(!new)>(host: Host<S>, env: nat -> Round) returns (err: int)
    requires host.Ready() && host.compute == ComputeMeasurements(env, host.opt.threads, host.table)
    requires HostTable(host.table)
    modifies host`calls, host`rows
    ensures old(host.rows) <= host.rows && old(host.calls) <= host.calls
    ensures forall p: nat :: |old(host.rows)| <= p < |host.rows| ==>
      RowShows(env, host.opt.threads, host.table, host.rows[p], old(host.calls), host.calls)
    ensures forall p: nat :: |old(host.rows)| <= p < |host.rows| ==>
      RowTells(host.compute, host.opt, host.table, host.rows[p], old(host.calls), host.calls)
    ensures err == 0 ==> exists indices: seq<nat> ::
      && host.Printed(old(host.rows), indices)
      && (forall m: nat :: m < |host.table| ==> Occurrences(indices, m) == if host.table[m].selected then 1 else 0)
    ensures err == 0 ==> Int8RowsAgree(host.table, host.rows, |old(host.rows)|)
    ensures err != 0 ==>
      old(host.calls) < host.calls && ComputeFails(env(host.calls - 1), host.opt.threads, err)
  {
    hide RowShows, RowTells, ComputeFails, StoppedBy, SharedRow, SoundOracle, SoundRpc, SoundMem, HostTable;
    HostTableMeasurable(host.table);
    ghost var counts, reported;
    ghost var from, mark := host.calls, |host.rows|;
    err, counts, reported := host.DispatchCompute();
    forall p: nat | mark <= p < |host.rows|
      ensures RowShows(env, host.opt.threads, host.table, host.rows[p], from, host.calls)
    {
      TellingRowShows(env, host.opt, host.table, host.rows[p], from, host.calls);
    }
    if err == 0 {
      SharedRowsAgree(env, host.opt.threads, host.table, host.rows, mark, counts);
      forall m: nat | m < |host.table|
        ensures Occurrences(reported, m) == if host.table[m].selected then 1 else 0
      {
        EachReportedOnce(host.opt, host.table, m);
        GroupHasStartIff(host.opt, host.table, host.table[m].group);
      }
    } else {
      StoppedByRound(env, host.opt, host.table, err, from, host.calls);
    }
  }

  // ---------------------------------------------------------------------------------------------
  // Null-call measurements

  function RpcMeasurements(env: nat -> Round, n: nat): (nat, int) -> Measured {
    (call: nat, calls: int) =>
      if calls < 0 then Failed(1) else Aggregate(env(call), n, calls, RpcOutcomes(env(call), n, calls))
  }

  /** Nothing outside fails in a round of null calls: every call of every worker returns. */
  ghost predicate RpcSucceeds(r: Round, n: nat, calls: nat) {
    RoundRuns(r, n) && forall i: nat, t: nat :: i < n && t < calls ==> r.info(i)(t).err == 0
  }

  /** Something outside fails in a round of null calls, with this error. */
  ghost predicate RpcFails(r: Round, n: nat, calls: nat, err: int) {
    FailureOf(r, n, (i: nat) => RpcError(r, i, calls), Failed(err))
  }

  ghost predicate ShortRpcRound(env: nat -> Round, base: nat, j: nat, n: nat, minMs: int) {
    Doubled(1, j) > 0 && RpcSucceeds(env(base + j), n, Doubled(1, j)) && env(base + j).elapsed < minMs as real
  }

  lemma RpcMeasurementIs(env: nat -> Round, n: nat, call: nat, calls: nat)
    requires n <= MAX_THREADS && calls <= INT_MAX
    ensures var m := RpcMeasurements(env, n)(call, calls);
      && (m.Totals? <==> RpcSucceeds(env(call), n, calls))
      && (m.Totals? ==> RowOf(env(call), n, calls, NoTicks, RpcSums(env(call), n, calls), m))
      && (m.Failed? ==> RpcFails(env(call), n, calls, m.err))
  {
    hide Aggregate, RpcOutcomes, RpcSums, RowOf, RoundRuns, FailureOf;
    RpcRoundRow(env(call), n, calls);
  }

  lemma EscalatedAt(at: nat -> Measured, k: nat, start: int, minMs: int, cap: int, j: nat)
    requires Escalated(at, k, start, minMs, cap) && j < k
    ensures at(j).Totals? && at(j).elapsed < minMs as real && Doubled(start, j) < cap
  {
    assert Escalates(at, j, start, minMs, cap);
  }

  lemma ShortRpcRounds(env: nat -> Round, opt: Options, base: nat, k: nat, j: nat)
    requires ValidOptions(opt) && j < k
    requires Escalated(RpcSeries(RpcMeasurements(env, opt.threads), base), k, 1, opt.minMs, MAX_RPC_CALLS)
    ensures ShortRpcRound(env, base, j, opt.threads, opt.minMs)
  {
    hide Doubled, RpcSucceeds, RpcMeasurements, RpcSums, Escalated;
    EscalatedAt(RpcSeries(RpcMeasurements(env, opt.threads), base), k, 1, opt.minMs, MAX_RPC_CALLS, j);
    DoubledIsMultiple(1, j);
    RpcMeasurementIs(env, opt.threads, base + j, Doubled(1, j));
  }

  /** The null calls: reported exactly if every call of the last round returns, after rounds that were too short. */
  method RunNullCalls<S(!new)>(host: Host<S>, env: nat -> Round) returns (err: int, ghost k: nat, ghost calls: nat)
    requires host.Ready() && host.rpc == RpcMeasurements(env, host.opt.threads)
    modifies host`calls, host`rows
    ensures host.calls == old(host.calls) + k + 1 && k <= 24 && calls == Doubled(1, k) <= 0x100_0000
    ensures forall j: nat :: j < k ==> ShortRpcRound(env, old(host.calls), j, host.opt.threads, host.opt.minMs)
    ensures err == 0 <==> RpcSucceeds(env(old(host.calls) + k), host.opt.threads, calls)
    ensures err == 0 ==> exists m: Measured ::
      && host.rows == old(host.rows) + [RpcRow(m)]
      && RowOf(env(old(host.calls) + k), host.opt.threads, calls, NoTicks,
               RpcSums(env(old(host.calls) + k), host.opt.threads, calls), m)
      && (m.elapsed >= host.opt.minMs as real || calls == 0x100_0000)
    ensures err != 0 ==>
      host.rows == old(host.rows) && RpcFails(env(old(host.calls) + k), host.opt.threads, calls, err)
  {
    hide Doubled, Escalated, RpcMeasurements, RpcSucceeds, RpcSums, RowOf, RpcFails, SoundOracle, SoundRpc, SoundMem;
    ghost var base, rows, n := host.calls, host.rows, host.opt.threads;
    err, k := host.RunRpcNull();
    DoubledIsMultiple(1, k);
    calls := Doubled(1, k);
    ghost var m := host.rpc(base + k, calls);
    RpcMeasurementIs(env, n, base + k, calls);
    forall j: nat | j < k
      ensures ShortRpcRound(env, base, j, n, host.opt.minMs)
    {
      ShortRpcRounds(env, host.opt, base, k, j);
    }
    assert err == 0 ==> host.rows == rows + [RpcRow(m)];
  }

  // ---------------------------------------------------------------------------------------------
  // Memory measurements

  type Memory = seq<seq<Byte>>

  function MemMeasurements(env: nat -> Round, n: nat, srcs: Memory, len: nat): MemOracle<Memory> {
    (call: nat, kind: int, dsts: Memory, repeats: int) =>
      if Buffers(srcs, dsts, n, len)
      then (Aggregate(env(call), n, repeats, MemOutcomes(env(call), n, kind, srcs, dsts, repeats, len)),
            MemBuffers(env(call), n, kind, srcs, dsts, repeats, len))
      else (Failed(1), dsts)
  }

  /** Every failed measurement carries an error, so no failure can pass for a success. */
  lemma MeasurementsSound(env: nat -> Round, n: nat, table: seq<Scenario>, srcs: Memory, len: nat)
    requires n >= 1
    ensures SoundOracle(ComputeMeasurements(env, n, table))
    ensures SoundRpc(RpcMeasurements(env, n))
    ensures SoundMem(MemMeasurements(env, n, srcs, len))
  {
    ComputeMeasurementsSound(env, n, table);
    forall call: nat, calls: int
      ensures RpcMeasurements(env, n)(call, calls).Failed? ==> RpcMeasurements(env, n)(call, calls).err != 0
    {
      if calls >= 0 {
        FailureIsVisible(env(call), n, calls, RpcOutcomes(env(call), n, calls));
      }
    }
    var mem := MemMeasurements(env, n, srcs, len);
    forall call: nat, kind: int, dsts: Memory, repeats: int
      ensures mem(call, kind, dsts, repeats).0.Failed? ==> mem(call, kind, dsts, repeats).0.err != 0
    {
      if Buffers(srcs, dsts, n, len) {
        FailureIsVisible(env(call), n, repeats, MemOutcomes(env(call), n, kind, srcs, dsts, repeats, len));
      }
    }
  }

  /** The host of a run: the scheduler over these measurements, with the filter evaluated. */
  method NewHost(env: nat -> Round, opt: Options, filter: string, srcs: Memory, dsts: Memory, len: nat)
    returns (host: Host<Memory>)
    requires ValidOptions(opt)
    ensures fresh(host) && host.Ready() && host.opt == opt && host.dsts == dsts && host.rows == [] && host.calls == 0
    ensures host.compute == ComputeMeasurements(env, opt.threads, host.table)
    ensures host.rpc == RpcMeasurements(env, opt.threads)
    ensures host.mem == MemMeasurements(env, opt.threads, srcs, len)
    ensures |host.table| == |COMPUTE_SCENARIOS|
    ensures forall i: nat :: i < |host.table| ==>
              host.table[i] == COMPUTE_SCENARIOS[i].(selected := Enabled(filter, COMPUTE_SCENARIOS[i].name))
  {
    var table := SelectScenarios(filter, COMPUTE_SCENARIOS);
    MeasurementsSound(env, opt.threads, table, srcs, len);
    host := new Host(ComputeMeasurements(env, opt.threads, table), RpcMeasurements(env, opt.threads),
                     MemMeasurements(env, opt.threads, srcs, len), opt, table, dsts);
  }

  ghost predicate KeepsLengths(env: nat -> Round) {
    forall call: nat :: RoundKeepsLengths(env(call))
  }

  lemma MemBuffersKeepShape(r: Round, n: nat, kind: int, srcs: Memory, dsts: Memory, repeats: int, len: nat)
    requires Buffers(srcs, dsts, n, len) && RoundKeepsLengths(r)
    ensures Buffers(srcs, MemBuffers(r, n, kind, srcs, dsts, repeats, len), n, len)
  {
    var after := MemBuffers(r, n, kind, srcs, dsts, repeats, len);
    forall i: nat | i < n
      ensures |after[i]| == len
    {
      assert LengthPreserving(r.mem(i));
      assert after[i] == dsts[i] || after[i] == MemResult(kind, srcs[i], dsts[i], repeats, r.mem(i)).dst;
    }
  }

  /** The buffers keep their shape through all rounds of a memory run. */
  lemma {:induction false} RoundsKeepShape(env: nat -> Round, n: nat, kind: int, srcs: Memory, dsts: Memory, len: nat,
                                           base: nat, j: nat)
    requires KeepsLengths(env) && Buffers(srcs, dsts, n, len)
    ensures Buffers(srcs, MemStates(MemMeasurements(env, n, srcs, len), kind, dsts, base)(j), n, len)
  {
    if j > 0 {
      RoundsKeepShape(env, n, kind, srcs, dsts, len, base, j - 1);
      var measure := MemMeasurements(env, n, srcs, len);
      var before := MemStates(measure, kind, dsts, base)(j - 1);
      RoundUnfolds(measure, kind, dsts, base, j - 1);
      assert RoundKeepsLengths(env(base + j - 1));
      MemBuffersKeepShape(env(base + j - 1), n, kind, srcs, before, Doubled(1, j - 1), len);
    }
  }

  /** The buffer length for a requested size, in 64-bit arithmetic, as the program computes it. */
  function HostBytes(sizeMib: DWord): DWord {
    var v := sizeMib * 0x10_0000 % WORD64;
    v - v % VECTOR_BYTES
  }

  /**
   * Every length the program goes on with suits the kernels and makes the verifier probe 4096
   * different positions; the length is zero exactly for the sizes whose product wraps to zero.
   */
  lemma HostLengths(sizeMib: DWord)
    ensures HostBytes(sizeMib) == sizeMib % 0x1000_0000_0000 * 0x10_0000
    ensures HostBytes(sizeMib) == 0 <==> sizeMib % 0x1000_0000_0000 == 0
    ensures HostBytes(sizeMib) <= INT_MAX ==> HostBytes(sizeMib) <= MAX_SAMPLED
    ensures HostBytes(sizeMib) % VECTOR_BYTES == 0
    ensures HostBytes(sizeMib) > 0 ==> DistinctProbes(HostBytes(sizeMib)) == MAX_PROBES
  {
    var q, r := sizeMib / 0x1000_0000_0000, sizeMib % 0x1000_0000_0000;
    QuotientIs(sizeMib * 0x10_0000, WORD64, q, r * 0x10_0000);
    QuotientIs(r * 0x10_0000, VECTOR_BYTES, r * 0x2000, 0);
    QuotientIs(r * 0x10_0000, 4096, r * 0x100, 0);
    if r > 0 {
      HostSizesProbeFully(HostBytes(sizeMib));
    }
  }

  /** Round k of a memory run in the terms of module RoundRows. */
  lemma RoundOf(env: nat -> Round, n: nat, kind: int, srcs: Memory, dsts: Memory, len: nat, base: nat, k: nat)
    requires 0 <= kind <= 2 && KeepsLengths(env) && WholeVectors(srcs, dsts, n, len) && n <= MAX_THREADS
    requires 0 < Doubled(1, k) <= INT_MAX
    ensures var measure := MemMeasurements(env, n, srcs, len);
      var round, before := MemRound(measure, kind, dsts, base, k), MemStates(measure, kind, dsts, base)(k);
      var r, repeats := env(base + k), Doubled(1, k);
      && Buffers(srcs, before, n, len) && Buffers(srcs, round.1, n, len)
      && (round.0.Totals? <==> MemSucceeds(r, n, kind, srcs))
      && (round.0.Totals? ==>
            && RowOf(r, n, repeats, (i: nat) => r.mem(i).ticks, MemSums(kind, srcs, n, repeats, len), round.0)
            && MemLeaves(r, n, kind, srcs, before, repeats, len, round.1))
      && (round.0.Failed? ==> FailureOf(r, n, (i: nat) => MemError(r, i, kind, srcs), round.0))
      && (kind == 0 ==> round.1 == before)
  {
    hide Aggregate, MemOutcomes, MemBuffers, RowOf, FailureOf, MemSucceeds, MemSums, MemLeaves, Doubled;
    var measure := MemMeasurements(env, n, srcs, len);
    RoundsKeepShape(env, n, kind, srcs, dsts, len, base, k);
    var before := MemStates(measure, kind, dsts, base)(k);
    RoundUnfolds(measure, kind, dsts, base, k);
    var r := env(base + k);
    MemRoundRow(r, n, kind, srcs, before, Doubled(1, k), len);
    MemBuffersKeepShape(r, n, kind, srcs, before, Doubled(1, k), len);
  }

  /** A read leaves the destinations alone through all rounds. */
  lemma {:induction false} ReadStates(env: nat -> Round, n: nat, srcs: Memory, dsts: Memory, len: nat, base: nat,
                                      k: nat)
    requires KeepsLengths(env) && WholeVectors(srcs, dsts, n, len) && n <= MAX_THREADS
    requires Doubled(1, k) <= INT_MAX
    ensures MemStates(MemMeasurements(env, n, srcs, len), 0, dsts, base)(k) == dsts
  {
    hide FailureOf, MemSucceeds, RowOf, MemLeaves, MemSums, MemMeasurements, KeepsLengths;
    DoubledIsMultiple(1, k);
    if k > 0 {
      DoubledIsMultiple(1, k - 1);
      ReadStates(env, n, srcs, dsts, len, base, k - 1);
      RoundOf(env, n, 0, srcs, dsts, len, base, k - 1);
    }
  }

  /** An earlier round of a memory run: nothing failed, and it was too short. */
  ghost predicate ShortMemRound(env: nat -> Round, base: nat, j: nat, n: nat, kind: int, srcs: Memory, minMs: int)
    requires |srcs| == n && forall i: nat :: i < n ==> |srcs[i]| > 0
  {
    MemSucceeds(env(base + j), n, kind, srcs) && env(base + j).elapsed < minMs as real
  }

  /**
   * A memory run whose last round is round k: it is reported exactly if nothing fails in that round, long
   * enough or at 2^25 repeats, after rounds that all succeeded and were too short.
   */
  ghost predicate MemRunShows(env: nat -> Round, opt: Options, kind: int, srcs: Memory, len: nat, base: nat, k: nat,
                              err: int, before: seq<Row>, rows: seq<Row>)
    requires |srcs| == opt.threads && (forall i: nat :: i < opt.threads ==> |srcs[i]| == len) && 0 < len <= MAX_SAMPLED
  {
    var r, n, repeats := env(base + k), opt.threads, Doubled(1, k);
    && k <= 25 && 0 < repeats <= 0x200_0000
    && (forall j: nat :: j < k ==> ShortMemRound(env, base, j, n, kind, srcs, opt.minMs))
    && (err == 0 <==> MemSucceeds(r, n, kind, srcs))
    && (err != 0 ==> rows == before && FailureOf(r, n, (i: nat) => MemError(r, i, kind, srcs), Failed(err)))
    && (err == 0 ==>
          && (r.elapsed >= opt.minMs as real || repeats == 0x200_0000)
          && exists m: Measured :: MemRowShows(r, n, kind, srcs, len, repeats, before, rows, m))
  }

  /** One row was added, and it is that of a round with these repeats. */
  ghost predicate MemRowShows(r: Round, n: nat, kind: int, srcs: Memory, len: nat, repeats: int, before: seq<Row>,
                              rows: seq<Row>, m: Measured)
    requires |srcs| == n && (forall i: nat :: i < n ==> |srcs[i]| == len) && len <= MAX_SAMPLED && repeats > 0
  {
    && rows == before + [MemRow(kind, m)]
    && RowOf(r, n, repeats, (i: nat) => r.mem(i).ticks, MemSums(kind, srcs, n, repeats, len), m)
  }

  /** The last row is reported, and its checksum mixes these of the threads. */
  predicate ShowsSums(rows: seq<Row>, sums: seq<DWord>) {
    rows != [] && rows[|rows| - 1].totals.Totals? && rows[|rows| - 1].totals.checksum == ThreadsChecksum(sums)
  }

  lemma LastRow(env: nat -> Round, opt: Options, kind: int, srcs: Memory, len: nat, base: nat, k: nat,
                before: seq<Row>, rows: seq<Row>)
    requires |srcs| == opt.threads && (forall i: nat :: i < opt.threads ==> |srcs[i]| == len) && 0 < len <= MAX_SAMPLED
    requires MemRunShows(env, opt, kind, srcs, len, base, k, 0, before, rows)
    ensures Doubled(1, k) > 0 && ShowsSums(rows, MemSums(kind, srcs, opt.threads, Doubled(1, k), len))
  {
    hide MemSucceeds, MemSums, ThreadsChecksum, Doubled, ShortMemRound, FailureOf, MemRowShows;
    var r, n, repeats := env(base + k), opt.threads, Doubled(1, k);
    var m: Measured :| MemRowShows(r, n, kind, srcs, len, repeats, before, rows, m);
    RowShowsSums(r, n, kind, srcs, len, repeats, before, rows, m);
  }

  lemma RowShowsSums(r: Round, n: nat, kind: int, srcs: Memory, len: nat, repeats: int, before: seq<Row>,
                     rows: seq<Row>, m: Measured)
    requires |srcs| == n && (forall i: nat :: i < n ==> |srcs[i]| == len) && len <= MAX_SAMPLED && repeats > 0
    requires MemRowShows(r, n, kind, srcs, len, repeats, before, rows, m)
    ensures ShowsSums(rows, MemSums(kind, srcs, n, repeats, len))
  {
    hide MemSums, ThreadsChecksum, SlowestOf;
  }

  lemma ShortRounds(env: nat -> Round, opt: Options, kind: int, srcs: Memory, dsts: Memory, len: nat, base: nat,
                    k: nat, j: nat)
    requires 0 <= kind <= 2 && KeepsLengths(env) && WholeVectors(srcs, dsts, opt.threads, len) && ValidOptions(opt)
    requires j < k && Escalated(MemSeries(MemMeasurements(env, opt.threads, srcs, len), kind, dsts, base), k, 1,
                                opt.minMs, MAX_MEM_REPEATS + 1)
    ensures ShortMemRound(env, base, j, opt.threads, kind, srcs, opt.minMs)
  {
    hide Doubled, MemRound, MemStates, MemSucceeds, MemSums, MemLeaves, Escalated;
    var measure := MemMeasurements(env, opt.threads, srcs, len);
    EscalatedAt(MemSeries(measure, kind, dsts, base), k, 1, opt.minMs, MAX_MEM_REPEATS + 1, j);
    DoubledIsMultiple(1, j);
    RoundOf(env, opt.threads, kind, srcs, dsts, len, base, j);
  }

  /** What a finished run of the scheduler says in these terms. */
  lemma MemRunShown(env: nat -> Round, opt: Options, kind: int, srcs: Memory, dsts: Memory, len: nat, base: nat,
                    k: nat, err: int, before: seq<Row>, rows: seq<Row>, m: Measured)
    requires 0 <= kind <= 2 && KeepsLengths(env) && WholeVectors(srcs, dsts, opt.threads, len) && ValidOptions(opt)
    requires Escalated(MemSeries(MemMeasurements(env, opt.threads, srcs, len), kind, dsts, base), k, 1, opt.minMs,
                       MAX_MEM_REPEATS + 1)
    requires k <= 25 && Doubled(1, k) <= 2 * MAX_MEM_REPEATS
    requires m == MemRound(MemMeasurements(env, opt.threads, srcs, len), kind, dsts, base, k).0
    requires m.Failed? ==> err == m.err != 0 && rows == before
    requires m.Totals? ==> err == 0 && rows == before + [MemRow(kind, m)]
    requires m.Totals? ==> m.elapsed >= opt.minMs as real || Doubled(1, k) == 2 * MAX_MEM_REPEATS
    ensures MemRunShows(env, opt, kind, srcs, len, base, k, err, before, rows)
  {
    hide Doubled, MemRound, MemStates, MemSucceeds, MemSums, MemLeaves, Escalated, ShortMemRound, RowOf, FailureOf,
         MemMeasurements, KeepsLengths;
    DoubledIsMultiple(1, k);
    RoundOf(env, opt.threads, kind, srcs, dsts, len, base, k);
    forall j: nat | j < k
      ensures ShortMemRound(env, base, j, opt.threads, kind, srcs, opt.minMs)
    {
      ShortRounds(env, opt, kind, srcs, dsts, len, base, k, j);
    }
    var r, n, repeats := env(base + k), opt.threads, Doubled(1, k);
    if m.Totals? {
      RowElapsed(r, n, repeats, (i: nat) => r.mem(i).ticks, MemSums(kind, srcs, n, repeats, len), m);
      assert MemRowShows(r, n, kind, srcs, len, repeats, before, rows, m);
    }
    assert m.Failed? ==> m == Failed(err);
  }

  /** Any memory scenario; found is what the last round finds in the destinations. */
  method RunMemScenario(host: Host<Memory>, env: nat -> Round, kind: int, srcs: Memory, len: nat)
    returns (err: int, ghost k: nat, ghost found: Memory)
    requires 0 <= kind <= 2 && host.Ready() && host.mem == MemMeasurements(env, host.opt.threads, srcs, len)
    requires KeepsLengths(env) && WholeVectors(srcs, host.dsts, host.opt.threads, len)
    modifies host`calls, host`rows, host`dsts
    ensures host.calls == old(host.calls) + k + 1
    ensures MemRunShows(env, host.opt, kind, srcs, len, old(host.calls), k, err, old(host.rows), host.rows)
    ensures Buffers(srcs, host.dsts, host.opt.threads, len) && |found| == host.opt.threads
    ensures err == 0 ==>
      MemLeaves(env(old(host.calls) + k), host.opt.threads, kind, srcs, found, Doubled(1, k), len, host.dsts)
    ensures kind == 0 ==> host.dsts == old(host.dsts)
  {
    hide Doubled, MemRound, MemSucceeds, MemSums, MemLeaves, Escalated, SoundOracle, SoundRpc, SoundMem, MemRunShows,
         KeepsLengths, MemMeasurements, MemStates;
    ghost var n, base, dsts, rows := host.opt.threads, host.calls, host.dsts, host.rows;
    err, k := host.RunMem(kind);
    found := MemStates(host.mem, kind, dsts, base)(k);
    ghost var m := MemRound(host.mem, kind, dsts, base, k).0;
    MemRunShown(env, host.opt, kind, srcs, dsts, len, base, k, err, rows, host.rows, m);
    DoubledIsMultiple(1, k);
    RoundOf(env, n, kind, srcs, dsts, len, base, k);
    if kind == 0 {
      ReadStates(env, n, srcs, dsts, len, base, k);
    }
  }

  /** A mem-read run: its row is fixed by the sources and the repeats of its last round; nothing is written. */
  method RunMemRead(host: Host<Memory>, env: nat -> Round, srcs: Memory, len: nat)
    returns (err: int, ghost k: nat, ghost sums: seq<DWord>)
    requires host.Ready() && host.mem == MemMeasurements(env, host.opt.threads, srcs, len)
    requires KeepsLengths(env) && WholeVectors(srcs, host.dsts, host.opt.threads, len)
    modifies host`calls, host`rows, host`dsts
    ensures host.calls == old(host.calls) + k + 1 && host.dsts == old(host.dsts)
    ensures MemRunShows(env, host.opt, MEM_READ, srcs, len, old(host.calls), k, err, old(host.rows), host.rows)
    ensures |sums| == host.opt.threads && Doubled(1, k) > 0
    ensures forall i: nat :: i < |sums| ==>
      sums[i] == VectorChecksum(StreamAccumulator(srcs[i], len / 128, Doubled(1, k)))
    ensures err == 0 ==> ShowsSums(host.rows, sums)
  {
    hide Doubled, VectorChecksum, StreamAccumulator, ThreadsChecksum, MemSucceeds, MemRunShows, KeepsLengths, MemLeaves,
         MemMeasurements;
    ghost var found;
    ghost var base, before := host.calls, host.rows;
    err, k, found := RunMemScenario(host, env, MEM_READ, srcs, len);
    DoubledIsMultiple(1, k);
    sums := ReadSums(srcs, host.opt.threads, Doubled(1, k), len);
    if err == 0 {
      LastRow(env, host.opt, MEM_READ, srcs, len, base, k, before, host.rows);
    }
  }

  /** A mem-write run: its checksum is fixed by the threads, the length and the repeats of its last round. */
  method RunMemWrite(host: Host<Memory>, env: nat -> Round, srcs: Memory, len: nat) returns (err: int, ghost k: nat)
    requires host.Ready() && host.mem == MemMeasurements(env, host.opt.threads, srcs, len)
    requires KeepsLengths(env) && WholeVectors(srcs, host.dsts, host.opt.threads, len)
    modifies host`calls, host`rows, host`dsts
    ensures host.calls == old(host.calls) + k + 1 && |host.dsts| == host.opt.threads
    ensures MemRunShows(env, host.opt, MEM_WRITE, srcs, len, old(host.calls), k, err, old(host.rows), host.rows)
    ensures Doubled(1, k) > 0
    ensures err == 0 ==> ShowsSums(host.rows, Repeated(WriteSum(len, Doubled(1, k)), host.opt.threads))
    ensures err == 0 ==> forall i: nat :: i < host.opt.threads ==>
      host.dsts[i] == env(old(host.calls) + k).mem(i).transfer(
        FilledWith(len, (0x5a5a5a5a + (Doubled(1, k) - 1) * 0x01010101) % WORD32))
  {
    hide Doubled, WriteSum, FilledWith, ThreadsChecksum, MemSucceeds, MemRunShows, KeepsLengths, MemMeasurements;
    ghost var found;
    ghost var base, before, n := host.calls, host.rows, host.opt.threads;
    err, k, found := RunMemScenario(host, env, MEM_WRITE, srcs, len);
    DoubledIsMultiple(1, k);
    if err == 0 {
      LastRow(env, host.opt, MEM_WRITE, srcs, len, base, k, before, host.rows);
      assert WriteSums(n, Doubled(1, k), len) == Repeated(WriteSum(len, Doubled(1, k)), n);
    }
  }

  /**
   * A mem-copy run: whatever the transfers do to the bytes in any round, at the end of a reported run no
   * destination differs from its source in more positions than the verifier leaves unprobed.
   */
  method RunMemCopy(host: Host<Memory>, env: nat -> Round, srcs: Memory, len: nat) returns (err: int, ghost k: nat)
    requires host.Ready() && host.mem == MemMeasurements(env, host.opt.threads, srcs, len)
    requires KeepsLengths(env) && WholeVectors(srcs, host.dsts, host.opt.threads, len)
    modifies host`calls, host`rows, host`dsts
    ensures host.calls == old(host.calls) + k + 1 && Buffers(srcs, host.dsts, host.opt.threads, len)
    ensures MemRunShows(env, host.opt, MEM_COPY, srcs, len, old(host.calls), k, err, old(host.rows), host.rows)
    ensures err == 0 ==> forall i: nat :: i < host.opt.threads ==>
      && host.dsts[i] == env(old(host.calls) + k).mem(i).transfer(srcs[i])
      && |Mismatches(srcs[i], host.dsts[i])| <= len - DistinctProbes(len)
  {
    hide Doubled, Mismatches, DistinctProbes, MemRunShows, KeepsLengths, MemMeasurements, MemSucceeds;
    ghost var found;
    ghost var base, before, n := host.calls, host.rows, host.opt.threads;
    err, k, found := RunMemScenario(host, env, MEM_COPY, srcs, len);
    if err == 0 {
      CopiesBounded(env, host.opt, srcs, len, base, k, before, host.rows);
    }
  }

  lemma CopiesBounded(env: nat -> Round, opt: Options, srcs: Memory, len: nat, base: nat, k: nat, before: seq<Row>,
                      rows: seq<Row>)
    requires |srcs| == opt.threads && (forall i: nat :: i < opt.threads ==> |srcs[i]| == len) && 0 < len <= MAX_SAMPLED
    requires MemRunShows(env, opt, MEM_COPY, srcs, len, base, k, 0, before, rows)
    ensures forall i: nat :: i < opt.threads ==>
      && |env(base + k).mem(i).transfer(srcs[i])| == len
      && |Mismatches(srcs[i], env(base + k).mem(i).transfer(srcs[i]))| <= len - DistinctProbes(len)
  {
    hide Mismatches, DistinctProbes, CopyArrives, RowOf, Doubled, MemSums, ShortMemRound;
    forall i: nat | i < opt.threads
      ensures |env(base + k).mem(i).transfer(srcs[i])| == len
      ensures |Mismatches(srcs[i], env(base + k).mem(i).transfer(srcs[i]))| <= len - DistinctProbes(len)
    {
      ArrivedBound(srcs[i], env(base + k).mem(i));
    }
  }

  /** What arrives at every probed position is wrong in no more than the unprobed ones. */
  lemma ArrivedBound(src: seq<Byte>, reply: MemReply)
    requires |src| > 0 && CopyArrives(src, reply)
    ensures |reply.transfer(src)| == |src|
    ensures |Mismatches(src, reply.transfer(src))| <= |src| - DistinctProbes(|src|)
  {
    hide Passes, AgreeAt, DistinctProbes, Mismatches;
    var arrived := reply.transfer(src);
    PassesIff(src, arrived);
    if |Mismatches(src, arrived)| > |src| - DistinctProbes(|src|) {
      ManyMismatchesRejected(src, arrived);
    }
  }

  /** For the buffer size asked for on the command line: all but 4096 bytes of a reported copy at most are wrong. */
  method RunMemCopyOfSize(host: Host<Memory>, env: nat -> Round, srcs: Memory, sizeMib: DWord)
    returns (err: int, ghost k: nat)
    requires 0 < HostBytes(sizeMib) <= INT_MAX
    requires host.Ready() && host.mem == MemMeasurements(env, host.opt.threads, srcs, HostBytes(sizeMib))
    requires KeepsLengths(env) && |srcs| == |host.dsts| == host.opt.threads
    requires forall i: nat :: i < host.opt.threads ==> |srcs[i]| == |host.dsts[i]| == HostBytes(sizeMib)
    modifies host`calls, host`rows, host`dsts
    ensures HostBytes(sizeMib) <= MAX_SAMPLED && Buffers(srcs, host.dsts, host.opt.threads, HostBytes(sizeMib))
    ensures MemRunShows(env, host.opt, MEM_COPY, srcs, HostBytes(sizeMib), old(host.calls), k, err, old(host.rows),
                        host.rows)
    ensures err == 0 ==> forall i: nat :: i < host.opt.threads ==>
      |Mismatches(srcs[i], host.dsts[i])| <= HostBytes(sizeMib) - 4096
  {
    hide MemRunShows, Doubled, Mismatches, KeepsLengths, MemMeasurements;
    HostLengths(sizeMib);
    err, k := RunMemCopy(host, env, srcs, HostBytes(sizeMib));
  }

  method RunMemReadOfSize(host: Host<Memory>, env: nat -> Round, srcs: Memory, sizeMib: DWord)
    returns (err: int, ghost k: nat, ghost sums: seq<DWord>)
    requires 0 < HostBytes(sizeMib) <= INT_MAX
    requires host.Ready() && host.mem == MemMeasurements(env, host.opt.threads, srcs, HostBytes(sizeMib))
    requires KeepsLengths(env) && |srcs| == |host.dsts| == host.opt.threads
    requires forall i: nat :: i < host.opt.threads ==> |srcs[i]| == |host.dsts[i]| == HostBytes(sizeMib)
    modifies host`calls, host`rows, host`dsts
    ensures HostBytes(sizeMib) <= MAX_SAMPLED && host.dsts == old(host.dsts)
    ensures MemRunShows(env, host.opt, MEM_READ, srcs, HostBytes(sizeMib), old(host.calls), k, err, old(host.rows),
                        host.rows)
    ensures err == 0 ==> ShowsSums(host.rows, sums)
  {
    hide MemRunShows, Doubled, VectorChecksum, StreamAccumulator, ThreadsChecksum, KeepsLengths, MemMeasurements;
    HostLengths(sizeMib);
    err, k, sums := RunMemRead(host, env, srcs, HostBytes(sizeMib));
  }

  method RunMemWriteOfSize(host: Host<Memory>, env: nat -> Round, srcs: Memory, sizeMib: DWord)
    returns (err: int, ghost k: nat)
    requires 0 < HostBytes(sizeMib) <= INT_MAX
    requires host.Ready() && host.mem == MemMeasurements(env, host.opt.threads, srcs, HostBytes(sizeMib))
    requires KeepsLengths(env) && |srcs| == |host.dsts| == host.opt.threads
    requires forall i: nat :: i < host.opt.threads ==> |srcs[i]| == |host.dsts[i]| == HostBytes(sizeMib)
    modifies host`calls, host`rows, host`dsts
    ensures HostBytes(sizeMib) <= MAX_SAMPLED && Doubled(1, k) > 0
    ensures MemRunShows(env, host.opt, MEM_WRITE, srcs, HostBytes(sizeMib), old(host.calls), k, err, old(host.rows),
                        host.rows)
    ensures err == 0 ==>
      ShowsSums(host.rows, Repeated(WriteSum(HostBytes(sizeMib), Doubled(1, k)), host.opt.threads))
  {
    hide Doubled, WriteSum, FilledWith, ThreadsChecksum, MemRunShows, KeepsLengths, MemMeasurements;
    HostLengths(sizeMib);
    err, k := RunMemWrite(host, env, srcs, HostBytes(sizeMib));
  }

  /** Nothing fails, and every byte arrives. */
  ghost predicate FaithfulWorld(env: nat -> Round, n: nat) {
    forall call: nat :: FaithfulRound(env(call), n)
  }

  ghost predicate FaithfulRound(r: Round, n: nat) {
    Allocated(r, n) && (forall i: nat :: r.createErr(i) == 0) && forall i: nat :: Faithful(r.mem(i))
  }

  lemma FaithfulCopyRound(r: Round, n: nat, srcs: Memory, dsts: Memory, repeats: int, len: nat)
    requires FaithfulRound(r, n) && Buffers(srcs, dsts, n, len) && len > 0 && len % VECTOR_BYTES == 0 && repeats > 0
    ensures Aggregate(r, n, repeats, MemOutcomes(r, n, MEM_COPY, srcs, dsts, repeats, len)).Totals?
    ensures MemBuffers(r, n, MEM_COPY, srcs, dsts, repeats, len) == srcs
  {
    var outs := MemOutcomes(r, n, MEM_COPY, srcs, dsts, repeats, len);
    var after := MemBuffers(r, n, MEM_COPY, srcs, dsts, repeats, len);
    assert Created(r, n) == n;
    forall i: nat | i < n
      ensures outs[i].err == 0 && after[i] == srcs[i]
    {
      FaithfulCopyAccepted(srcs[i], dsts[i], repeats, r.mem(i));
    }
    assert after == srcs;
    assert FirstFailing(outs) == n;
  }

  /** If nothing fails and every byte arrives, a mem-copy run is reported and leaves exact copies. */
  method RunMemCopyFaithfully(host: Host<Memory>, env: nat -> Round, srcs: Memory, len: nat) returns (err: int)
    requires host.Ready() && host.mem == MemMeasurements(env, host.opt.threads, srcs, len)
    requires FaithfulWorld(env, host.opt.threads) && Buffers(srcs, host.dsts, host.opt.threads, len)
    requires len > 0 && len % VECTOR_BYTES == 0
    modifies host`calls, host`rows, host`dsts
    ensures err == 0 && host.dsts == srcs
  {
    ghost var n, base, dsts := host.opt.threads, host.calls, host.dsts;
    ghost var k;
    err, k := host.RunMem(MEM_COPY);
    FaithfulLengths(env, n);
    RoundsKeepShape(env, n, MEM_COPY, srcs, dsts, len, base, k);
    ghost var before := MemStates(host.mem, MEM_COPY, dsts, base)(k);
    RoundUnfolds(host.mem, MEM_COPY, dsts, base, k);
    DoubledIsMultiple(1, k);
    assert FaithfulRound(env(base + k), n);
    FaithfulCopyRound(env(base + k), n, srcs, before, Doubled(1, k), len);
  }

  lemma FaithfulLengths(env: nat -> Round, n: nat)
    requires FaithfulWorld(env, n)
    ensures KeepsLengths(env)
  {
    forall call: nat
      ensures RoundKeepsLengths(env(call))
    {
      assert FaithfulRound(env(call), n);
      assert forall i: nat :: Faithful(env(call).mem(i)) ==> LengthPreserving(env(call).mem(i));
    }
  }
}
