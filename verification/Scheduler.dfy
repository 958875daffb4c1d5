/**
 * The adaptive runs of the host and the dispatch of the compute scenarios, over an arbitrary outcome
 * of every measurement. Module Benchmark puts the measurements of module Measure in their place.
 */
module Scheduler {
  import opened Words
  import opened Results
  import opened ScenarioFilter

  /** Iteration groups are numbers below 32, the width of the mask of completed groups. */
  type Group = bv5

  const GROUP_NONE: Group := 0
  const MAX_COMPUTE_ITERATIONS: int := 0x3000_0000
  const MAX_RPC_CALLS: int := 0x100_0000
  const MAX_MEM_REPEATS: int := 0x100_0000
  const NEVER_MEASURED: real := 1e300

  /** A table entry. selected is what the filter says of its name, which never changes during a run. */
  datatype Scenario = Scenario(name: string, kernel: int, start: int, group: Group, selected: bool)

  /** Evaluates the filter for every entry. */
  method SelectScenarios(filter: string, entries: seq<Scenario>) returns (table: seq<Scenario>)
    ensures |table| == |entries|
    ensures forall i: nat :: i < |entries| ==> table[i] == entries[i].(selected := Enabled(filter, entries[i].name))
  {
    table := [];
    var i := 0;
    while i < |entries|
      invariant i <= |entries| && |table| == i
      invariant forall j: nat :: j < i ==> table[j] == entries[j].(selected := Enabled(filter, entries[j].name))
    {
      var enabled := ScenarioEnabled(filter, entries[i].name);
      table := table + [entries[i].(selected := enabled)];
      i := i + 1;
    }
  }

  /** The outcome of the measurement with a given number, of a table entry with an iteration count. */
  type ComputeOracle = (nat, nat, int) -> Measured

  /** No measurement succeeds with a count that is not positive, and failures carry an error. */
  ghost predicate SoundOracle(measure: ComputeOracle) {
    && (forall call, index, iterations :: measure(call, index, iterations).Totals? ==> iterations > 0)
    && (forall call, index, iterations ::
          measure(call, index, iterations).Failed? ==> measure(call, index, iterations).err != 0)
  }

  /** Memory measurements also rewrite the destination buffers, whose representation S is left open. */
  type MemOracle<!S> = (nat, int, S, int) -> (Measured, S)

  ghost predicate SoundRpc(measure: (nat, int) -> Measured) {
    forall call, n :: measure(call, n).Failed? ==> measure(call, n).err != 0
  }

  ghost predicate SoundMem<S(!new)>(measure: MemOracle<S>) {
    forall call, kind, dsts, n :: measure(call, kind, dsts, n).0.Failed? ==> measure(call, kind, dsts, n).0.err != 0
  }

  // ---------------------------------------------------------------------------------------------
  // Groups

  predicate IsMember(table: seq<Scenario>, group: Group, i: nat)
    requires i < |table|
  {
    table[i].group == group && table[i].selected
  }

  /** The enabled scenarios of a group among the first k, in table order. */
  function Members(table: seq<Scenario>, group: Group, k: nat): (ms: seq<nat>)
    requires k <= |table|
    ensures |ms| <= k
  {
    if k == 0 then []
    else if IsMember(table, group, k - 1) then Members(table, group, k - 1) + [k - 1]
    else Members(table, group, k - 1)
  }

  lemma {:induction false} MembersBelow(table: seq<Scenario>, group: Group, k: nat)
    requires k <= |table|
    ensures forall p: nat :: p < |Members(table, group, k)| ==> Members(table, group, k)[p] < k
  {
    if k > 0 {
      MembersBelow(table, group, k - 1);
    }
  }

  lemma {:induction false} MembersAre(table: seq<Scenario>, group: Group, k: nat, q: nat)
    requires k <= |table| && q < |Members(table, group, k)|
    ensures Members(table, group, k)[q] < k && IsMember(table, group, Members(table, group, k)[q])
  {
    if k > 0 && q < |Members(table, group, k - 1)| {
      MembersAre(table, group, k - 1, q);
    }
  }

  lemma {:induction false} MembersPrefix(table: seq<Scenario>, group: Group, i: nat, k: nat)
    requires i <= k <= |table|
    ensures Members(table, group, i) <= Members(table, group, k)
  {
    if i < k {
      MembersPrefix(table, group, i, k - 1);
    }
  }

  /** Where a table entry stands among the members. */
  lemma MembersAt(table: seq<Scenario>, group: Group, i: nat)
    requires i < |table|
    ensures IsMember(table, group, i)
      ==> Members(table, group, i + 1) == Members(table, group, i) + [i]
    ensures !IsMember(table, group, i) ==> Members(table, group, i + 1) == Members(table, group, i)
    ensures Members(table, group, i + 1) <= Members(table, group, |table|)
  {
    MembersPrefix(table, group, i + 1, |table|);
  }

  /** The largest start among the first k members, zero if none is positive; a user's count overrides it. */
  function GroupStart(opt: Options, table: seq<Scenario>, group: Group, k: nat): int
    requires k <= |table|
  {
    if opt.iterations > 0 then opt.iterations
    else if k == 0 then 0
    else
      var s := GroupStart(opt, table, group, k - 1);
      if IsMember(table, group, k - 1) && table[k - 1].start > s then table[k - 1].start
      else s
  }

  /** The user's count; without one the maximum of zero and the members' starts. */
  lemma {:induction false} GroupStartIsMaximum(opt: Options, table: seq<Scenario>, group: Group, k: nat)
    requires k <= |table|
    ensures opt.iterations > 0 ==> GroupStart(opt, table, group, k) == opt.iterations
    ensures GroupStart(opt, table, group, k) >= 0
    ensures opt.iterations <= 0 ==>
      forall m: nat :: m < k && IsMember(table, group, m) ==> table[m].start <= GroupStart(opt, table, group, k)
    ensures opt.iterations <= 0 && GroupStart(opt, table, group, k) > 0
      ==> exists m: nat :: m < k && IsMember(table, group, m) && table[m].start == GroupStart(opt, table, group, k)
  {
    if k > 0 {
      GroupStartIsMaximum(opt, table, group, k - 1);
    }
  }

  lemma {:induction false} GroupStartInRange(opt: Options, table: seq<Scenario>, group: Group, k: nat)
    requires k <= |table| && opt.iterations <= INT_MAX && forall i: nat :: i < |table| ==> table[i].start <= INT_MAX
    ensures GroupStart(opt, table, group, k) <= INT_MAX
  {
    if k > 0 {
      GroupStartInRange(opt, table, group, k - 1);
    }
  }

  /** The rows of one round that starts at measurement base with a common count. */
  function GroupRows(measure: ComputeOracle, ms: seq<nat>, base: nat, iterations: int): (rows: seq<Row>)
    ensures |rows| == |ms|
  {
    seq(|ms|, p requires 0 <= p < |ms| => ComputeRow(ms[p], measure(base + p, ms[p], iterations)))
  }

  lemma GroupRowsSnoc(measure: ComputeOracle, ms: seq<nat>, m: nat, base: nat, iterations: int)
    ensures GroupRows(measure, ms + [m], base, iterations)
      == GroupRows(measure, ms, base, iterations) + [ComputeRow(m, measure(base + |ms|, m, iterations))]
  {
  }

  ghost predicate AllSucceed(rows: seq<Row>) {
    forall p: nat :: p < |rows| ==> rows[p].totals.Totals?
  }

  ghost predicate AllLongEnough(rows: seq<Row>, minMs: int) {
    forall p: nat :: p < |rows| ==> LongEnough(rows[p].totals, minMs)
  }

  /** Row p is the first that failed. */
  ghost predicate FailsFirst(rows: seq<Row>, p: int, err: int) {
    && 0 <= p < |rows| && rows[p].totals == Failed(err)
    && forall q: nat :: q < p ==> rows[q].totals.Totals?
  }

  lemma OutcomesSnoc(rows: seq<Row>, row: Row, minMs: int)
    ensures AllSucceed(rows + [row]) <==> AllSucceed(rows) && row.totals.Totals?
    ensures AllLongEnough(rows + [row], minMs) <==> AllLongEnough(rows, minMs) && LongEnough(row.totals, minMs)
  {
    var all := rows + [row];
    assert all[|rows|] == row && forall p: nat :: p < |rows| ==> all[p] == rows[p];
  }

  /** The results table holds the totals of the expected rows. */
  predicate Holds(results: seq<Measured>, ms: seq<nat>, expected: seq<Row>) {
    |ms| == |expected|
    && forall p: nat :: p < |ms| ==> ms[p] < |results| && results[ms[p]] == expected[p].totals
  }

  lemma HoldsSnoc(results: seq<Measured>, ms: seq<nat>, expected: seq<Row>, i: nat, m: Measured)
    requires Holds(results, ms, expected) && i < |results| && forall p: nat :: p < |ms| ==> ms[p] < i
    ensures Holds(results[i := m], ms + [i], expected + [ComputeRow(i, m)])
  {
  }

  /** A group round escalates when it succeeded, some member was too short, and the cap is not passed. */
  ghost predicate GroupEscalates(measure: ComputeOracle, opt: Options, ms: seq<nat>, base: nat, start: int, j: nat) {
    var rows := GroupRows(measure, ms, base + j * |ms|, Doubled(start, j));
    && opt.iterations <= 0 && AllSucceed(rows) && !AllLongEnough(rows, opt.minMs)
    && Doubled(start, j) <= MAX_COMPUTE_ITERATIONS
  }

  ghost predicate GroupEscalated(measure: ComputeOracle, opt: Options, ms: seq<nat>, base: nat, start: int, k: nat) {
    forall j: nat :: j < k ==> GroupEscalates(measure, opt, ms, base, start, j)
  }

  // ---------------------------------------------------------------------------------------------
  // Series of rounds

  function StartOf(opt: Options, scenario: Scenario): int {
    if opt.iterations > 0 then opt.iterations else scenario.start
  }

  ghost function ComputeSeries(measure: ComputeOracle, index: nat, start: int, base: nat): nat -> Measured {
    (j: nat) => measure(base + j, index, Doubled(start, j))
  }

  ghost function RpcSeries(measure: (nat, int) -> Measured, base: nat): nat -> Measured {
    (j: nat) => measure(base + j, Doubled(1, j))
  }

  /** Round j of a memory run: its result and the buffers it leaves to the next. */
  ghost function MemRound<S>(measure: MemOracle<S>, kind: int, dsts: S, base: nat, j: nat): (Measured, S) {
    measure(base + j, kind, if j == 0 then dsts else MemRound(measure, kind, dsts, base, j - 1).1, Doubled(1, j))
  }

  ghost function MemSeries<S>(measure: MemOracle<S>, kind: int, dsts: S, base: nat): nat -> Measured {
    (j: nat) => MemRound(measure, kind, dsts, base, j).0
  }

  /** The buffers before each round. */
  ghost function MemStates<S>(measure: MemOracle<S>, kind: int, dsts: S, base: nat): nat -> S {
    (j: nat) => if j == 0 then dsts else MemRound(measure, kind, dsts, base, j - 1).1
  }

  /** at and state are the results and the buffers of successive rounds. */
  ghost predicate MemLinked<S>(measure: MemOracle<S>, kind: int, base: nat, at: nat -> Measured, state: nat -> S) {
    forall j: nat :: MemLink(measure, kind, base, at, state, j)
  }

  ghost predicate MemLink<S>(measure: MemOracle<S>, kind: int, base: nat, at: nat -> Measured, state: nat -> S,
                             j: nat) {
    var round := measure(base + j, kind, state(j), Doubled(1, j));
    at(j) == round.0 && state(j + 1) == round.1
  }

  lemma SeriesLinked<S>(measure: MemOracle<S>, kind: int, dsts: S, base: nat)
    ensures MemLinked(measure, kind, base, MemSeries(measure, kind, dsts, base), MemStates(measure, kind, dsts, base))
  {
    forall j: nat
      ensures MemLink(measure, kind, base, MemSeries(measure, kind, dsts, base),
                      MemStates(measure, kind, dsts, base), j)
    {
      RoundUnfolds(measure, kind, dsts, base, j);
    }
  }

  lemma {:induction false} RoundUnfolds<S>(measure: MemOracle<S>, kind: int, dsts: S, base: nat, j: nat)
    ensures MemRound(measure, kind, dsts, base, j)
      == measure(base + j, kind, MemStates(measure, kind, dsts, base)(j), Doubled(1, j))
  {
    var before := MemStates(measure, kind, dsts, base)(j);
    assert before == if j == 0 then dsts else MemRound(measure, kind, dsts, base, j - 1).1;
  }

  lemma CapsArePowers()
    ensures Pow2(24) == MAX_RPC_CALLS && Pow2(25) == 2 * MAX_MEM_REPEATS
  {
    Pow2Add(6, 6);
    Pow2Add(12, 12);
  }

  /** From one, values below a cap of at most 2^n allow at most n doublings and nothing beyond 2^n. */
  lemma RoundsFromOne(at: nat -> Measured, k: nat, minMs: int, cap: int, n: nat)
    requires Escalated(at, k, 1, minMs, cap) && n <= 25 && cap <= Pow2(n)
    ensures k <= n && Doubled(1, k) <= Pow2(n)
    ensures Doubled(1, k) < Pow2(n) ==> 2 * Doubled(1, k) <= Pow2(n)
  {
    forall j: nat | j < k
      ensures Escalates(at, j, 1, minMs, Pow2(n))
    {
      assert Escalates(at, j, 1, minMs, cap);
    }
    EscalationFromOne(at, k, minMs, n);
    DoubledIsMultiple(1, k);
    if k < n {
      PowMonotone(k + 1, n);
    }
  }

  /** No compute round after the first tries more than twice the cap. */
  lemma ComputeRounds(at: nat -> Measured, k: nat, start: int, minMs: int)
    requires start > 0 && k > 0 && Escalated(at, k, start, minMs, MAX_COMPUTE_ITERATIONS + 1)
    ensures Doubled(start, k) <= 2 * MAX_COMPUTE_ITERATIONS
  {
    EscalationBounded(at, k, start, minMs, MAX_COMPUTE_ITERATIONS + 1);
  }

  lemma RpcRounds(at: nat -> Measured, k: nat, minMs: int)
    requires Escalated(at, k, 1, minMs, MAX_RPC_CALLS)
    ensures k <= 24 && Doubled(1, k) <= MAX_RPC_CALLS
  {
    CapsArePowers();
    RoundsFromOne(at, k, minMs, MAX_RPC_CALLS, 24);
  }

  lemma MemRounds(at: nat -> Measured, k: nat, minMs: int)
    requires Escalated(at, k, 1, minMs, MAX_MEM_REPEATS + 1)
    ensures k <= 25 && Doubled(1, k) <= 2 * MAX_MEM_REPEATS
    ensures Doubled(1, k) > MAX_MEM_REPEATS ==> Doubled(1, k) == 2 * MAX_MEM_REPEATS
  {
    CapsArePowers();
    RoundsFromOne(at, k, minMs, MAX_MEM_REPEATS + 1, 25);
  }

  // ---------------------------------------------------------------------------------------------
  // The order in which the dispatch reports

  function GroupReport(opt: Options, table: seq<Scenario>, group: Group): seq<nat> {
    if GroupStart(opt, table, group, |table|) <= 0 then [] else Members(table, group, |table|)
  }

  /** The table indices reported from entry i on, when the given groups are already completed. */
  ghost function Report(opt: Options, table: seq<Scenario>, i: nat, done: set<Group>): seq<nat>
    requires i <= |table|
    decreases |table| - i
  {
    if i == |table| then []
    else if !table[i].selected then Report(opt, table, i + 1, done)
    else if table[i].group == GROUP_NONE then [i] + Report(opt, table, i + 1, done)
    else if table[i].group in done then Report(opt, table, i + 1, done)
    else GroupReport(opt, table, table[i].group) + Report(opt, table, i + 1, done + {table[i].group})
  }

  /** An enabled scenario is reported unless it is in a group without a positive start. */
  predicate Reportable(opt: Options, table: seq<Scenario>, m: nat)
    requires m < |table|
  {
    table[m].selected && (table[m].group == GROUP_NONE || GroupStart(opt, table, table[m].group, |table|) > 0)
  }

  function Occurrences(s: seq<nat>, m: nat): nat {
    multiset(s)[m]
  }

  lemma SnocCount(s: seq<nat>, x: nat, m: nat)
    ensures Occurrences(s + [x], m) == Occurrences(s, m) + if m == x then 1 else 0
  {
  }

  lemma {:induction false} MembersCount(table: seq<Scenario>, group: Group, k: nat, m: nat)
    requires k <= |table| && m < |table|
    ensures Occurrences(Members(table, group, k), m) == if m < k && IsMember(table, group, m) then 1 else 0
  {
    if k == 0 {
      assert Members(table, group, 0) == [];
    } else {
      hide Occurrences;
      MembersCount(table, group, k - 1, m);
      SnocCount(Members(table, group, k - 1), k - 1, m);
    }
  }

  /** The groups completed are those of the enabled grouped entries already passed. */
  ghost predicate DoneBefore(table: seq<Scenario>, i: nat, done: set<Group>)
    requires i <= |table|
  {
    && GROUP_NONE !in done
    && (forall j: nat :: j < i && table[j].selected && table[j].group != GROUP_NONE ==> table[j].group in done)
  }

  lemma {:induction false} ReportCount(opt: Options, table: seq<Scenario>, i: nat, done: set<Group>, m: nat)
    requires i <= |table| && m < |table| && DoneBefore(table, i, done)
    ensures Occurrences(Report(opt, table, i, done), m)
      == if Reportable(opt, table, m) && table[m].group !in done && (table[m].group == GROUP_NONE ==> i <= m) then 1
         else 0
    decreases |table| - i
  {
    if i < |table| {
      var group := table[i].group;
      if !table[i].selected || (group != GROUP_NONE && group in done) {
        ReportCount(opt, table, i + 1, done, m);
      } else if group == GROUP_NONE {
        ReportCount(opt, table, i + 1, done, m);
        var rest := Report(opt, table, i + 1, done);
        assert multiset([i] + rest) == multiset([i]) + multiset(rest);
      } else {
        ReportCount(opt, table, i + 1, done + {group}, m);
        MembersCount(table, group, |table|, m);
        var first, rest := GroupReport(opt, table, group), Report(opt, table, i + 1, done + {group});
        assert multiset(first + rest) == multiset(first) + multiset(rest);
      }
    }
  }

  /** Over a whole run every reportable scenario is reported exactly once, and nothing else. */
  lemma EachReportedOnce(opt: Options, table: seq<Scenario>, m: nat)
    requires m < |table|
    ensures Occurrences(Report(opt, table, 0, {}), m) == if Reportable(opt, table, m) then 1 else 0
  {
    ReportCount(opt, table, 0, {}, m);
  }

  /**
   * Every enabled scenario is reported exactly when each enabled grouped scenario has a user's count
   * or an enabled member with a positive start in its group.
   */
  lemma AllEnabledReportedIff(opt: Options, table: seq<Scenario>)
    ensures (forall m: nat :: m < |table| && table[m].selected ==> Occurrences(Report(opt, table, 0, {}), m) == 1)
      <==> (forall m: nat :: m < |table| && table[m].selected && table[m].group != GROUP_NONE ==>
              GroupHasStart(opt, table, table[m].group))
  {
    forall m: nat | m < |table| && table[m].selected
      ensures Occurrences(Report(opt, table, 0, {}), m) == 1
        <==> (table[m].group != GROUP_NONE ==> GroupHasStart(opt, table, table[m].group))
    {
      EachReportedOnce(opt, table, m);
      GroupHasStartIff(opt, table, table[m].group);
    }
  }

  predicate GroupHasStart(opt: Options, table: seq<Scenario>, group: Group) {
    opt.iterations > 0 || exists m: nat :: m < |table| && IsMember(table, group, m) && table[m].start > 0
  }

  lemma GroupHasStartIff(opt: Options, table: seq<Scenario>, group: Group)
    ensures GroupHasStart(opt, table, group) <==> GroupStart(opt, table, group, |table|) > 0
  {
    if opt.iterations <= 0 {
      GroupStartIsMaximum(opt, table, group, |table|);
    }
  }

  predicate HasBit(mask: bv32, g: Group) {
    mask & (1 << g) != 0
  }

  /** The bit mask of the source as a set of groups. */
  ghost predicate Represents(mask: bv32, done: set<Group>) {
    forall g: Group :: HasBit(mask, g) <==> g in done
  }

  lemma ShiftedBits(mask: bv32, g: Group, h: Group)
    ensures HasBit(mask | (1 << h), g) <==> g == h || HasBit(mask, g)
  {
  }

  lemma AddBit(mask: bv32, done: set<Group>, h: Group)
    requires Represents(mask, done)
    ensures Represents(mask | (1 << h), done + {h})
  {
    forall g: Group
      ensures HasBit(mask | (1 << h), g) <==> g in done + {h}
    {
      ShiftedBits(mask, g, h);
    }
  }

  predicate Reports(row: Row, index: nat) {
    row.ComputeRow? && row.index == index && row.totals.Totals?
  }

  /** after extends before by successful rows with exactly these table indices. */
  ghost predicate Names(before: seq<Row>, after: seq<Row>, indices: seq<nat>) {
    && |after| == |before| + |indices| && after[..|before|] == before
    && forall p: nat :: p < |indices| ==> Reports(after[|before| + p], indices[p])
  }

  lemma GroupRowsReport(measure: ComputeOracle, ms: seq<nat>, base: nat, iterations: int)
    requires AllSucceed(GroupRows(measure, ms, base, iterations))
    ensures forall q: nat :: q < |ms| ==> Reports(GroupRows(measure, ms, base, iterations)[q], ms[q])
  {
  }

  /** The groups run so far and the iteration count of each one's reported round. */
  datatype GroupCounts = GroupCounts(done: set<Group>, count: Group -> int)

  function With(counts: GroupCounts, group: Group, count: int): GroupCounts {
    GroupCounts(counts.done + {group}, (g: Group) => if g == group then count else counts.count(g))
  }

  /** Every row from p on of a grouped scenario was measured with the count recorded for its group. */
  ghost predicate Shared(measure: ComputeOracle, table: seq<Scenario>, rows: seq<Row>, from: nat, counts: GroupCounts) {
    forall p: nat :: from <= p < |rows| ==> SharedRow(measure, table, rows[p], counts)
  }

  ghost predicate SharedRow(measure: ComputeOracle, table: seq<Scenario>, row: Row, counts: GroupCounts) {
    row.ComputeRow? && row.index < |table| && table[row.index].group != GROUP_NONE ==>
      table[row.index].group in counts.done && MeasuredWith(measure, row, counts.count(table[row.index].group))
  }

  lemma SharedExtends(measure: ComputeOracle, table: seq<Scenario>, row: Row, counts: GroupCounts, group: Group,
                      count: int)
    requires SharedRow(measure, table, row, counts) && group !in counts.done && group != GROUP_NONE
    ensures SharedRow(measure, table, row, With(counts, group, count))
  {
  }

  ghost predicate MeasuredWith(measure: ComputeOracle, row: Row, iterations: int)
    requires row.ComputeRow?
  {
    exists call: nat :: row.totals == measure(call, row.index, iterations)
  }

  // ---------------------------------------------------------------------------------------------
  // Where a row comes from

  /** Rounds call to call + k of one scenario: each doubles the count, and all but the last were too short. */
  ghost predicate OwnRounds(measure: ComputeOracle, opt: Options, table: seq<Scenario>, index: nat, call: nat, k: nat)
    requires index < |table|
  {
    (k > 0 ==> opt.iterations == 0) && forall j: nat :: j < k ==> ShortRound(measure, opt, table, index, call, j)
  }

  ghost predicate ShortRound(measure: ComputeOracle, opt: Options, table: seq<Scenario>, index: nat, call: nat, j: nat)
    requires index < |table|
  {
    var iterations := Doubled(if opt.iterations > 0 then opt.iterations else table[index].start, j);
    var m := measure(call + j, index, iterations);
    m.Totals? && m.elapsed < opt.minMs as real && iterations <= MAX_COMPUTE_ITERATIONS
  }

  /** The last round of such a run, which nothing but its own length or the cap ended. */
  ghost predicate OwnRow(measure: ComputeOracle, opt: Options, table: seq<Scenario>, row: Row, call: nat, k: nat)
    requires row.ComputeRow? && row.index < |table|
  {
    var start := if opt.iterations > 0 then opt.iterations else table[row.index].start;
    && OwnRounds(measure, opt, table, row.index, call, k)
    && row.totals == measure(call + k, row.index, Doubled(start, k)) && row.totals.Totals?
    && (opt.iterations > 0 || row.totals.elapsed >= opt.minMs as real || Doubled(start, k) > MAX_COMPUTE_ITERATIONS)
  }

  /** One of the rows of the last round of the row's group, which starts at measurement call. */
  ghost predicate GroupRow(measure: ComputeOracle, opt: Options, table: seq<Scenario>, row: Row, call: nat, k: nat,
                           q: nat)
    requires row.ComputeRow? && row.index < |table|
  {
    var group := table[row.index].group;
    var ms, start := Members(table, group, |table|), GroupStart(opt, table, group, |table|);
    var last := GroupRows(measure, ms, call + k * |ms|, Doubled(start, k));
    && start > 0 && GroupEscalated(measure, opt, ms, call, start, k) && AllSucceed(last)
    && q < |ms| && ms[q] == row.index && row == last[q]
    && (opt.iterations > 0 || Doubled(start, k) > MAX_COMPUTE_ITERATIONS
        || forall p: nat :: p < |last| ==> last[p].totals.Totals? && last[p].totals.elapsed >= opt.minMs as real)
  }

  function MemberCount(table: seq<Scenario>, index: nat): nat
    requires index < |table|
  {
    |Members(table, table[index].group, |table|)|
  }

  /** The row shows a measurement made between two counts of measurements, at the end of a proper run. */
  ghost predicate RowTells(measure: ComputeOracle, opt: Options, table: seq<Scenario>, row: Row, from: nat, to: nat) {
    && row.ComputeRow? && row.index < |table| && table[row.index].selected
    && if table[row.index].group == GROUP_NONE then
         exists call: nat, k: nat :: from <= call && call + k < to && OwnRow(measure, opt, table, row, call, k)
       else
         exists call: nat, k: nat, q: nat :: from <= call && call + (k + 1) * MemberCount(table, row.index) <= to
           && GroupRow(measure, opt, table, row, call, k, q)
  }

  ghost predicate RowsTell(measure: ComputeOracle, opt: Options, table: seq<Scenario>, rows: seq<Row>, mark: nat,
                           from: nat, to: nat) {
    forall p: nat :: mark <= p < |rows| ==> RowTells(measure, opt, table, rows[p], from, to)
  }

  lemma RowTellsLater(measure: ComputeOracle, opt: Options, table: seq<Scenario>, row: Row, from: nat, to: nat,
                      to': nat)
    requires RowTells(measure, opt, table, row, from, to) && to <= to'
    ensures RowTells(measure, opt, table, row, from, to')
  {
    hide OwnRow, GroupRow, MemberCount;
    if table[row.index].group == GROUP_NONE {
      var call: nat, k: nat :| from <= call && call + k < to && OwnRow(measure, opt, table, row, call, k);
      assert call + k < to';
    } else {
      var call: nat, k: nat, q: nat :| from <= call && call + (k + 1) * MemberCount(table, row.index) <= to
        && GroupRow(measure, opt, table, row, call, k, q);
      assert call + (k + 1) * MemberCount(table, row.index) <= to';
    }
  }

  /** Rows that tell, followed by more that do. */
  lemma RowsTellMore(measure: ComputeOracle, opt: Options, table: seq<Scenario>, rows: seq<Row>, more: seq<Row>,
                     mark: nat, from: nat, to: nat, to': nat)
    requires RowsTell(measure, opt, table, rows, mark, from, to) && to <= to'
    requires forall q: nat :: q < |more| ==> RowTells(measure, opt, table, more[q], from, to')
    ensures RowsTell(measure, opt, table, rows + more, mark, from, to')
  {
    hide RowTells;
    forall p: nat | mark <= p < |rows + more|
      ensures RowTells(measure, opt, table, (rows + more)[p], from, to')
    {
      if p < |rows| {
        RowTellsLater(measure, opt, table, rows[p], from, to, to');
      } else {
        assert (rows + more)[p] == more[p - |rows|];
      }
    }
  }

  /** The measurement made last failed with this error, in a round of an enabled scenario, or of a group of them. */
  ghost predicate StoppedBy(measure: ComputeOracle, opt: Options, table: seq<Scenario>, err: int, from: nat, to: nat) {
    || (exists index: nat, k: nat :: OwnFailure(measure, opt, table, index, k, err, from, to))
    || (exists group: Group, call: nat, k: nat, p: nat ::
          GroupFailure(measure, opt, table, group, call, k, p, err, from, to))
  }

  ghost predicate OwnFailure(measure: ComputeOracle, opt: Options, table: seq<Scenario>, index: nat, k: nat, err: int,
                             from: nat, to: nat) {
    && index < |table| && table[index].selected && table[index].group == GROUP_NONE && from + k + 1 <= to
    && OwnRounds(measure, opt, table, index, to - k - 1, k)
    && var start := if opt.iterations > 0 then opt.iterations else table[index].start;
       measure(to - 1, index, Doubled(start, k)) == Failed(err)
  }

  ghost predicate GroupFailure(measure: ComputeOracle, opt: Options, table: seq<Scenario>, group: Group, call: nat,
                               k: nat, p: nat, err: int, from: nat, to: nat) {
    var ms, start := Members(table, group, |table|), GroupStart(opt, table, group, |table|);
    && group != GROUP_NONE && start > 0 && from <= call && call + k * |ms| + p + 1 == to
    && GroupEscalated(measure, opt, ms, call, start, k)
    && FailsFirst(GroupRows(measure, ms, call + k * |ms|, Doubled(start, k)), p, err)
  }

  // ---------------------------------------------------------------------------------------------
  // The host

  class Host<S(!new)> {
    const compute: ComputeOracle
    const rpc: (nat, int) -> Measured
    const mem: MemOracle<S>
    const opt: Options
    const table: seq<Scenario>
    var calls: nat
    var rows: seq<Row>
    var dsts: S

    constructor (compute: ComputeOracle, rpc: (nat, int) -> Measured, mem: MemOracle<S>, opt: Options,
                 table: seq<Scenario>, dsts: S)
      ensures this.compute == compute && this.rpc == rpc && this.mem == mem && this.opt == opt && this.table == table
      ensures calls == 0 && rows == [] && this.dsts == dsts
    {
      this.compute, this.rpc, this.mem, this.opt, this.table := compute, rpc, mem, opt, table;
      calls, rows, this.dsts := 0, [], dsts;
    }

    ghost predicate Ready() {
      && ValidOptions(opt) && SoundOracle(compute)
      && SoundRpc(rpc) && SoundMem(mem)
      && forall i: nat :: i < |table| ==> table[i].start <= INT_MAX
    }

    /**
     * One ungrouped scenario. k is the number of doublings: each earlier round succeeded but was too
     * short; the run fails with the first failing round, or reports the last one.
     */
    method RunCompute(index: nat) returns (err: int, ghost k: nat)
      requires Ready() && index < |table|
      modifies this`calls, this`rows
      ensures var start := StartOf(opt, table[index]); var at := ComputeSeries(compute, index, start, old(calls));
        && calls == old(calls) + k + 1
        && Escalated(at, k, start, opt.minMs, MAX_COMPUTE_ITERATIONS + 1) && (k > 0 ==> opt.iterations == 0)
        && Doubled(start, k) <= INT_MAX
        && (at(k).Failed? ==> err == at(k).err != 0 && rows == old(rows))
        && (at(k).Totals? ==> err == 0 && rows == old(rows) + [ComputeRow(index, at(k))])
        && (err == 0 ==> opt.iterations > 0 || LongEnough(at(k), opt.minMs)
                         || Doubled(start, k) > MAX_COMPUTE_ITERATIONS)
    {
      var iterations := StartOf(opt, table[index]);
      ghost var start := iterations;
      ghost var base := calls;
      ghost var at := ComputeSeries(compute, index, start, base);
      var m: Measured;
      k := 0;
      while true
        invariant calls == base + k && rows == old(rows)
        invariant iterations == Doubled(start, k) && iterations <= INT_MAX
        invariant k > 0 ==> opt.iterations == 0 && iterations > 0
        invariant Escalated(at, k, start, opt.minMs, MAX_COMPUTE_ITERATIONS + 1)
        decreases 2 * MAX_COMPUTE_ITERATIONS + 2 - iterations
      {
        hide Doubled, Escalated, SoundRpc, SoundMem;
        m := compute(calls, index, iterations);
        calls := calls + 1;
        if m.Failed? {
          return m.err, k;
        }
        if opt.iterations > 0 || m.elapsed >= opt.minMs as real || iterations > MAX_COMPUTE_ITERATIONS {
          break;
        }
        EscalatedStep(at, k, start, opt.minMs, MAX_COMPUTE_ITERATIONS + 1);
        iterations := iterations * 2;
        k := k + 1;
      }
      rows := rows + [ComputeRow(index, m)];
      return 0, k;
    }

    /** The null calls: doubled from one call per thread, never beyond 2^24. */
    method RunRpcNull() returns (err: int, ghost k: nat)
      requires Ready()
      modifies this`calls, this`rows
      ensures var at := RpcSeries(rpc, old(calls));
        && calls == old(calls) + k + 1 && k <= 24 && Doubled(1, k) <= MAX_RPC_CALLS
        && Escalated(at, k, 1, opt.minMs, MAX_RPC_CALLS)
        && (at(k).Failed? ==> err == at(k).err != 0 && rows == old(rows))
        && (at(k).Totals? ==> err == 0 && rows == old(rows) + [RpcRow(at(k))])
        && (err == 0 ==> LongEnough(at(k), opt.minMs) || Doubled(1, k) == MAX_RPC_CALLS)
    {
      var n := 1;
      ghost var base := calls;
      ghost var at := RpcSeries(rpc, base);
      var m: Measured;
      k := 0;
      while true
        invariant calls == base + k && rows == old(rows)
        invariant n == Doubled(1, k) && 0 < n <= INT_MAX
        invariant Escalated(at, k, 1, opt.minMs, MAX_RPC_CALLS)
        decreases 2 * MAX_RPC_CALLS - n
      {
        hide Doubled, Escalated, SoundMem, SoundOracle;
        RpcRounds(at, k, opt.minMs);
        m := rpc(calls, n);
        assert m == at(k);
        calls := calls + 1;
        if m.Failed? {
          return m.err, k;
        }
        if m.elapsed >= opt.minMs as real || n >= MAX_RPC_CALLS {
          break;
        }
        EscalatedStep(at, k, 1, opt.minMs, MAX_RPC_CALLS);
        n := n * 2;
        k := k + 1;
      }
      rows := rows + [RpcRow(m)];
      return 0, k;
    }

    /** A memory scenario: doubled from one repeat, at most to 2^25, each round rewriting the destinations. */
    method RunMem(kind: int) returns (err: int, ghost k: nat)
      requires Ready()
      modifies this`calls, this`rows, this`dsts
      ensures var at := MemSeries(mem, kind, old(dsts), old(calls));
        && calls == old(calls) + k + 1 && k <= 25 && Doubled(1, k) <= 2 * MAX_MEM_REPEATS
        && Escalated(at, k, 1, opt.minMs, MAX_MEM_REPEATS + 1)
        && dsts == MemRound(mem, kind, old(dsts), old(calls), k).1
        && (at(k).Failed? ==> err == at(k).err != 0 && rows == old(rows))
        && (at(k).Totals? ==> err == 0 && rows == old(rows) + [MemRow(kind, at(k))])
        && (err == 0 ==> LongEnough(at(k), opt.minMs) || Doubled(1, k) == 2 * MAX_MEM_REPEATS)
    {
      SeriesLinked(mem, kind, dsts, calls);
      var m;
      m, k := EscalateMem(kind, MemSeries(mem, kind, dsts, calls), MemStates(mem, kind, dsts, calls));
      if m.Failed? {
        return m.err, k;
      }
      rows := rows + [MemRow(kind, m)];
      return 0, k;
    }

    method EscalateMem(kind: int, ghost at: nat -> Measured, ghost state: nat -> S) returns (m: Measured, ghost k: nat)
      requires Ready() && MemLinked(mem, kind, calls, at, state) && dsts == state(0)
      modifies this`calls, this`dsts
      ensures calls == old(calls) + k + 1 && k <= 25 && Doubled(1, k) <= 2 * MAX_MEM_REPEATS
      ensures Escalated(at, k, 1, opt.minMs, MAX_MEM_REPEATS + 1)
      ensures m == at(k) && dsts == state(k + 1)
      ensures m.Failed? ==> m.err != 0
      ensures m.Totals? ==> LongEnough(m, opt.minMs) || Doubled(1, k) == 2 * MAX_MEM_REPEATS
    {
      var repeats := 1;
      ghost var base := calls;
      k := 0;
      while true
        invariant calls == base + k && dsts == state(k)
        invariant repeats == Doubled(1, k) && 0 < repeats <= INT_MAX
        invariant Escalated(at, k, 1, opt.minMs, MAX_MEM_REPEATS + 1)
        decreases 2 * MAX_MEM_REPEATS + 2 - repeats
      {
        MemRounds(at, k, opt.minMs);
        var round := mem(calls, kind, dsts, repeats);
        m := round.0;
        dsts := round.1;
        calls := calls + 1;
        assert MemLink(mem, kind, base, at, state, k);
        if m.Failed? || m.elapsed >= opt.minMs as real || repeats > MAX_MEM_REPEATS {
          return;
        }
        EscalatedStep(at, k, 1, opt.minMs, MAX_MEM_REPEATS + 1);
        repeats := repeats * 2;
        k := k + 1;
      }
    }

    /** The group's common start: the user's count, else the largest start of its enabled members. */
    method ChooseGroupStart(group: Group) returns (iterations: int)
      requires Ready()
      ensures iterations == GroupStart(opt, table, group, |table|)
    {
      iterations := if opt.iterations > 0 then opt.iterations else 0;
      if iterations > 0 {
        return;
      }
      var i := 0;
      while i < |table|
        invariant i <= |table| && iterations == GroupStart(opt, table, group, i)
      {
        if IsMember(table, group, i) && table[i].start > iterations {
          iterations := table[i].start;
        }
        i := i + 1;
      }
    }

    lemma MeasuredFailed(ms: seq<nat>, below: seq<nat>, base: nat, iterations: int, err: int)
      requires below < ms && compute(base + |below|, ms[|below|], iterations) == Failed(err)
      requires AllSucceed(GroupRows(compute, below, base, iterations))
      ensures FailsFirst(GroupRows(compute, ms, base, iterations), |below|, err)
    {
      var rows, done := GroupRows(compute, ms, base, iterations), GroupRows(compute, below, base, iterations);
      forall q: nat | q < |below|
        ensures rows[q].totals.Totals?
      {
        assert rows[q] == done[q];
      }
    }

    /** One round over the members, in table order, with a common count. */
    method MeasureGroup(group: Group, iterations: int, before: seq<Measured>)
      returns (err: int, results: seq<Measured>, measured: nat, longEnough: bool)
      requires Ready() && |before| == |table|
      modifies this`calls
      ensures |results| == |table|
      ensures var ms := Members(table, group, |table|); var expected := GroupRows(compute, ms, old(calls), iterations);
        && (err == 0 ==> measured == |ms| && calls == old(calls) + |ms| && AllSucceed(expected)
                         && Holds(results, ms, expected) && longEnough == AllLongEnough(expected, opt.minMs))
        && (err != 0 ==> FailsFirst(expected, calls - old(calls) - 1, err))
    {
      ghost var base := calls;
      ghost var ms: seq<nat> := [];
      ghost var expected: seq<Row> := [];
      results := before;
      measured := 0;
      var minElapsed := NEVER_MEASURED;
      var i := 0;
      while i < |table|
        invariant i <= |table| && |results| == |table|
        invariant ms == Members(table, group, i)
        invariant expected == GroupRows(compute, ms, base, iterations)
        invariant calls == base + |ms| && measured == |ms|
        invariant AllSucceed(expected) && Holds(results, ms, expected)
        invariant minElapsed >= opt.minMs as real <==> AllLongEnough(expected, opt.minMs)
      {
        hide AllSucceed, GroupRows, Holds, AllLongEnough, Members, FailsFirst, SoundRpc, SoundMem;
        MembersAt(table, group, i);
        MembersBelow(table, group, i);
        if IsMember(table, group, i) {
          var m := compute(calls, i, iterations);
          calls := calls + 1;
          GroupRowsSnoc(compute, ms, i, base, iterations);
          if m.Failed? {
            MeasuredFailed(Members(table, group, |table|), ms, base, iterations, m.err);
            return m.err, results, measured, false;
          }
          OutcomesSnoc(expected, ComputeRow(i, m), opt.minMs);
          HoldsSnoc(results, ms, expected, i, m);
          results := results[i := m];
          ms, expected := ms + [i], expected + [ComputeRow(i, m)];
          if m.elapsed < minElapsed {
            minElapsed := m.elapsed;
          }
          measured := measured + 1;
        }
        i := i + 1;
      }
      return 0, results, measured, minElapsed >= opt.minMs as real;
    }

    /** Prints the results of a group, in table order. */
    method PrintGroup(group: Group, results: seq<Measured>, ghost expected: seq<Row>)
      requires |results| == |table|
      requires Holds(results, Members(table, group, |table|), expected)
      requires forall p: nat :: p < |expected| ==>
                 expected[p] == ComputeRow(Members(table, group, |table|)[p], expected[p].totals)
      modifies this`rows
      ensures rows == old(rows) + expected
    {
      var i := 0;
      ghost var all, p := Members(table, group, |table|), 0;
      while i < |table|
        invariant i <= |table| && p <= |expected|
        invariant p == |Members(table, group, i)|
        invariant rows == old(rows) + expected[..p]
      {
        MembersAt(table, group, i);
        if IsMember(table, group, i) {
          assert all[p] == i;
          rows := rows + [ComputeRow(i, results[i])];
          assert expected[..p + 1] == expected[..p] + [expected[p]];
          p := p + 1;
        }
        i := i + 1;
      }
    }

    /**
     * All enabled members of a group, doubled together. Every row printed comes from the last round
     * and so has the same iteration count; k is the number of doublings.
     */
    method RunComputeGroup(group: Group) returns (err: int, ghost k: nat)
      requires Ready()
      modifies this`calls, this`rows
      ensures var ms, start := Members(table, group, |table|), GroupStart(opt, table, group, |table|);
        var last := GroupRows(compute, ms, old(calls) + k * |ms|, Doubled(start, k));
        && (start <= 0 || ms == [] ==> err == 0 && rows == old(rows) && calls == old(calls))
        && (start > 0 && ms != [] ==>
            && GroupEscalated(compute, opt, ms, old(calls), start, k) && Doubled(start, k) <= INT_MAX
            && (err == 0 ==> AllSucceed(last) && rows == old(rows) + last && calls == old(calls) + k * |ms| + |ms|
                             && (opt.iterations > 0 || AllLongEnough(last, opt.minMs)
                                 || Doubled(start, k) > MAX_COMPUTE_ITERATIONS))
            && (err != 0 ==> rows == old(rows) && FailsFirst(last, calls - (old(calls) + k * |ms|) - 1, err)))
    {
      var results: seq<Measured> := seq(|table|, i => Totals(0, 0, 0, 0.0));
      var iterations := ChooseGroupStart(group);
      GroupStartInRange(opt, table, group, |table|);
      if iterations <= 0 {
        return 0, 0;
      }
      ghost var ms, base := Members(table, group, |table|), calls;
      err, results, iterations, k := EscalateGroup(group, iterations, results);
      if err == 0 {
        PrintGroup(group, results, GroupRows(compute, ms, base + k * |ms|, iterations));
      }
    }

    /** Rounds of a group until one fails or suffices; the results are those of the last round. */
    method EscalateGroup(group: Group, start: int, before: seq<Measured>)
      returns (err: int, results: seq<Measured>, iterations: int, ghost k: nat)
      requires Ready() && |before| == |table| && 0 < start <= INT_MAX
      modifies this`calls
      ensures var ms := Members(table, group, |table|);
        var last := GroupRows(compute, ms, old(calls) + k * |ms|, iterations);
        && |results| == |table| && iterations == Doubled(start, k) <= INT_MAX
        && (ms == [] ==> err == 0 && calls == old(calls))
        && GroupEscalated(compute, opt, ms, old(calls), start, k)
        && (err == 0 ==> AllSucceed(last) && Holds(results, ms, last) && calls == old(calls) + k * |ms| + |ms|)
        && (err == 0 && ms != [] ==> opt.iterations > 0 || AllLongEnough(last, opt.minMs)
                                      || iterations > MAX_COMPUTE_ITERATIONS)
        && (err != 0 ==> FailsFirst(last, calls - (old(calls) + k * |ms|) - 1, err))
    {
      ghost var ms, base := Members(table, group, |table|), calls;
      results, iterations, k := before, start, 0;
      while true
        invariant |results| == |table|
        invariant calls == base + k * |ms| && (ms == [] ==> k == 0)
        invariant iterations == Doubled(start, k) && 0 < iterations <= INT_MAX
        invariant GroupEscalated(compute, opt, ms, base, start, k)
        decreases 2 * MAX_COMPUTE_ITERATIONS + 2 - iterations
      {
        hide Doubled, AllSucceed, GroupRows, Holds, AllLongEnough, Members, FailsFirst;
        var measured, longEnough;
        err, results, measured, longEnough := MeasureGroup(group, iterations, results);
        if err != 0 || measured == 0 || opt.iterations > 0 || longEnough || iterations > MAX_COMPUTE_ITERATIONS {
          return;
        }
        assert GroupEscalates(compute, opt, ms, base, start, k);
        assert (k + 1) * |ms| == k * |ms| + |ms|;
        iterations := iterations * 2;
        k := k + 1;
      }
    }

    /** The rows printed since a mark name exactly these table indices, and every one is a success. */
    ghost predicate Printed(mark: seq<Row>, indices: seq<nat>)
      reads this
    {
      Names(mark, rows, indices)
    }

    /** Rows printed since a mark, all told by measurements made since from. */
    ghost predicate Told(mark: nat, from: nat)
      reads this
    {
      from <= calls && mark <= |rows| && RowsTell(compute, opt, table, rows, mark, from, calls)
    }

    /**
     * The compute dispatch: scenarios in table order, each group once, when its first enabled member
     * comes up. Every row printed shows a measurement made in this run, at the end of rounds that were
     * too short. Without an error the rows are exactly the report of the whole table, and all rows of a
     * group were measured with the one count returned for it; an error is that of the measurement made
     * last.
     */
    method DispatchCompute() returns (err: int, ghost counts: GroupCounts, ghost reported: seq<nat>)
      requires Ready()
      modifies this`calls, this`rows
      ensures Printed(old(rows), reported) && reported <= Report(opt, table, 0, {}) && Told(|old(rows)|, old(calls))
      ensures err == 0 ==> reported == Report(opt, table, 0, {})
      ensures err == 0 ==> Shared(compute, table, rows, |old(rows)|, counts)
      ensures err != 0 ==> StoppedBy(compute, opt, table, err, old(calls), calls)
    {
      hide Names, RowsTell, SharedRow, StoppedBy, SoundOracle, SoundRpc, SoundMem;
      var completed: bv32 := 0;
      ghost var mark, from := rows, calls;
      reported := [];
      counts := GroupCounts({}, (g: Group) => 0);
      NothingPrinted();
      var i := 0;
      while i < |table|
        invariant i <= |table| && GROUP_NONE !in counts.done
        invariant Represents(completed, counts.done)
        invariant Printed(mark, reported) && Shared(compute, table, rows, |mark|, counts) && Told(|mark|, from)
        invariant reported + Report(opt, table, i, counts.done) == Report(opt, table, 0, {})
      {
        if table[i].selected {
          var group := table[i].group;
          if group != GROUP_NONE {
            if !HasBit(completed, group) {
              ghost var count;
              err, count := ReportGroup(group, mark, from, reported, counts);
              AddBit(completed, counts.done, group);
              completed := completed | (1 << group);
              if err != 0 {
                return;
              }
              counts := With(counts, group, count);
              reported := reported + GroupReport(opt, table, group);
            }
          } else {
            err := ReportOne(i, mark, from, reported, counts);
            if err != 0 {
              return;
            }
            reported := reported + [i];
          }
        }
        i := i + 1;
      }
      assert reported == Report(opt, table, 0, {});
      err := 0;
    }

    lemma NothingPrinted()
      ensures Printed(rows, []) && Told(|rows|, calls)
    {
    }

    method ReportOne(index: nat, ghost mark: seq<Row>, ghost from: nat, ghost reported: seq<nat>,
                     ghost counts: GroupCounts) returns (err: int)
      requires Ready() && index < |table| && table[index].selected && table[index].group == GROUP_NONE
      requires Printed(mark, reported) && Shared(compute, table, rows, |mark|, counts) && Told(|mark|, from)
      modifies this`calls, this`rows
      ensures Printed(mark, if err == 0 then reported + [index] else reported)
      ensures Shared(compute, table, rows, |mark|, counts) && Told(|mark|, from)
      ensures err != 0 ==> StoppedBy(compute, opt, table, err, from, calls)
    {
      hide Names, RowsTell, StoppedBy, Ready;
      ghost var base, before := calls, rows;
      ghost var k;
      err, k := RunCompute(index);
      OwnRun(index, base, k);
      if err == 0 {
        ghost var row := rows[|before|];
        NamesMore(mark, before, reported, [row], [index]);
        assert RowTells(compute, opt, table, row, from, calls) by {
          assert from <= base && base + k < calls && OwnRow(compute, opt, table, row, base, k);
        }
        RowsTellMore(compute, opt, table, before, [row], |mark|, from, base, calls);
      } else {
        RowsTellMore(compute, opt, table, before, [], |mark|, from, base, calls);
        assert before + [] == before;
        assert OwnFailure(compute, opt, table, index, k, err, from, calls);
        StoppedByOwn(index, k, err, from);
      }
    }

    /** The rounds of a run in the form in which the rows tell them. */
    lemma OwnRun(index: nat, base: nat, k: nat)
      requires index < |table| && (k > 0 ==> opt.iterations == 0)
      requires var start := StartOf(opt, table[index]);
        Escalated(ComputeSeries(compute, index, start, base), k, start, opt.minMs, MAX_COMPUTE_ITERATIONS + 1)
      ensures OwnRounds(compute, opt, table, index, base, k)
    {
      hide Doubled;
      var start := StartOf(opt, table[index]);
      var at := ComputeSeries(compute, index, start, base);
      forall j: nat | j < k
        ensures ShortRound(compute, opt, table, index, base, j)
      {
        assert Escalates(at, j, start, opt.minMs, MAX_COMPUTE_ITERATIONS + 1);
      }
    }

    lemma StoppedByOwn(index: nat, k: nat, err: int, from: nat)
      requires OwnFailure(compute, opt, table, index, k, err, from, calls)
      ensures StoppedBy(compute, opt, table, err, from, calls)
    {
    }

    lemma StoppedByGroup(group: Group, call: nat, k: nat, p: nat, err: int, from: nat)
      requires GroupFailure(compute, opt, table, group, call, k, p, err, from, calls)
      ensures StoppedBy(compute, opt, table, err, from, calls)
    {
    }

    method ReportGroup(group: Group, ghost mark: seq<Row>, ghost from: nat, ghost reported: seq<nat>,
                       ghost counts: GroupCounts) returns (err: int, ghost count: int)
      requires Ready() && group !in counts.done && group != GROUP_NONE
      requires Printed(mark, reported) && Shared(compute, table, rows, |mark|, counts) && Told(|mark|, from)
      modifies this`calls, this`rows
      ensures Printed(mark, if err == 0 then reported + GroupReport(opt, table, group) else reported)
      ensures err == 0 ==> Shared(compute, table, rows, |mark|, With(counts, group, count))
      ensures Told(|mark|, from)
      ensures err != 0 ==> StoppedBy(compute, opt, table, err, from, calls)
    {
      hide Doubled, GroupRows, Names, SharedRow, Members, GroupEscalated, FailsFirst, AllSucceed, AllLongEnough,
           RowsTell, StoppedBy, Ready;
      ghost var base, before := calls, rows;
      ghost var k;
      err, k := RunComputeGroup(group);
      ghost var ms, start := Members(table, group, |table|), GroupStart(opt, table, group, |table|);
      count := Doubled(start, k);
      assert (k + 1) * |ms| == k * |ms| + |ms|;
      if start <= 0 || ms == [] {
        assert before + [] == before && reported + [] == reported;
        SharedAll(before, [], |mark|, group, count, counts);
      } else if err == 0 {
        GroupPrinted(group, before, base, k, |mark|, from, calls, counts);
        GroupRowsReport(compute, ms, base + k * |ms|, count);
        NamesMore(mark, before, reported, GroupRows(compute, ms, base + k * |ms|, count), ms);
      } else {
        RowsTellMore(compute, opt, table, before, [], |mark|, from, base, calls);
        assert before + [] == before;
        StoppedByGroup(group, base, k, calls - (base + k * |ms|) - 1, err, from);
      }
    }

    /** What the rows of a group's last round add to the rows before them. */
    lemma GroupPrinted(group: Group, before: seq<Row>, base: nat, k: nat, mark: nat, from: nat, to: nat,
                       counts: GroupCounts)
      requires mark <= |before| && from <= base && group !in counts.done
      requires Shared(compute, table, before, mark, counts) && RowsTell(compute, opt, table, before, mark, from, base)
      requires LastRound(group, base, k, to)
      ensures var ms, count := Members(table, group, |table|), Doubled(GroupStart(opt, table, group, |table|), k);
        var all := before + GroupRows(compute, ms, base + k * |ms|, count);
        && Shared(compute, table, all, mark, With(counts, group, count))
        && RowsTell(compute, opt, table, all, mark, from, to)
    {
      hide Doubled, GroupRows, SharedRow, Members, GroupStart, RowsTell, RowTells, LastRound, GroupEscalated;
      var ms, count := Members(table, group, |table|), Doubled(GroupStart(opt, table, group, |table|), k);
      var last := GroupRows(compute, ms, base + k * |ms|, count);
      forall q: nat | q < |last|
        ensures SharedRow(compute, table, last[q], With(counts, group, count))
        ensures RowTells(compute, opt, table, last[q], from, to)
      {
        SharedGroupRow(group, ms, base + k * |ms|, count, q, counts);
        GroupRowTells(group, base, k, q, from, to);
      }
      LastRoundEnds(group, base, k, to);
      SharedAll(before, last, mark, group, count, counts);
      RowsTellMore(compute, opt, table, before, last, mark, from, base, to);
    }

    /** Round k of a group ends its run. */
    ghost predicate LastRound(group: Group, base: nat, k: nat, to: nat) {
      var ms, start := Members(table, group, |table|), GroupStart(opt, table, group, |table|);
      var last := GroupRows(compute, ms, base + k * |ms|, Doubled(start, k));
      && group != GROUP_NONE && start > 0 && GroupEscalated(compute, opt, ms, base, start, k) && AllSucceed(last)
      && base + (k + 1) * |ms| <= to
      && (opt.iterations > 0 || AllLongEnough(last, opt.minMs) || Doubled(start, k) > MAX_COMPUTE_ITERATIONS)
    }

    lemma LastRoundEnds(group: Group, base: nat, k: nat, to: nat)
      requires LastRound(group, base, k, to)
      ensures base <= to && group != GROUP_NONE
    {
      var n := |Members(table, group, |table|)|;
      assert (k + 1) * n >= 0;
    }

    /** Successful rows name their scenarios. */
    lemma NamesMore(mark: seq<Row>, before: seq<Row>, indices: seq<nat>, last: seq<Row>, ms: seq<nat>)
      requires Names(mark, before, indices) && |last| == |ms|
      requires forall q: nat :: q < |ms| ==> Reports(last[q], ms[q])
      ensures Names(mark, before + last, indices + ms)
    {
      var all, named := before + last, indices + ms;
      forall p: nat | p < |named|
        ensures Reports(all[|mark| + p], named[p])
      {
        if p < |indices| {
          assert all[|mark| + p] == before[|mark| + p];
        } else {
          assert all[|mark| + p] == last[p - |indices|];
        }
      }
      assert all[..|mark|] == before[..|mark|];
    }

    lemma SharedAll(before: seq<Row>, last: seq<Row>, mark: nat, group: Group, count: int, counts: GroupCounts)
      requires mark <= |before| && Shared(compute, table, before, mark, counts)
      requires group !in counts.done && group != GROUP_NONE
      requires forall q: nat :: q < |last| ==> SharedRow(compute, table, last[q], With(counts, group, count))
      ensures Shared(compute, table, before + last, mark, With(counts, group, count))
    {
      hide SharedRow;
      forall p: nat | mark <= p < |before + last|
        ensures SharedRow(compute, table, (before + last)[p], With(counts, group, count))
      {
        if p < |before| {
          SharedExtends(compute, table, before[p], counts, group, count);
        } else {
          assert (before + last)[p] == last[p - |before|];
        }
      }
    }

    lemma GroupRowTells(group: Group, base: nat, k: nat, q: nat, from: nat, to: nat)
      requires LastRound(group, base, k, to) && q < |Members(table, group, |table|)| && from <= base
      ensures var ms := Members(table, group, |table|);
        var last := GroupRows(compute, ms, base + k * |ms|, Doubled(GroupStart(opt, table, group, |table|), k));
        RowTells(compute, opt, table, last[q], from, to)
    {
      hide Doubled, GroupEscalated, AllSucceed, Members, GroupStart;
      var ms := Members(table, group, |table|);
      MembersAre(table, group, |table|, q);
      var row := GroupRows(compute, ms, base + k * |ms|, Doubled(GroupStart(opt, table, group, |table|), k))[q];
      assert row.index == ms[q] && table[row.index].group == group && MemberCount(table, row.index) == |ms|;
      assert GroupRow(compute, opt, table, row, base, k, q);
    }

    lemma SharedGroupRow(group: Group, ms: seq<nat>, base: nat, count: int, q: nat, counts: GroupCounts)
      requires q < |ms| && ms == Members(table, group, |table|)
      ensures SharedRow(compute, table, GroupRows(compute, ms, base, count)[q], With(counts, group, count))
    {
      MembersAre(table, group, |table|, q);
      var row := GroupRows(compute, ms, base, count)[q];
      assert row.totals == compute(base + q, row.index, count);
    }
  }
}
