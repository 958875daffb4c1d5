/** The host's side of the HMX scenarios: table, buffer sizes, input patterns and the doubling run. */
module HmxHost {
  import opened Words
  import opened Results
  import opened Errors
  import opened Checksum
  import opened ComputeKernels
  import opened HmxResource
  import opened HmxBench
  import opened ScenarioFilter

  const MAX_HMX_REPEATS: int := 0x100_0000

  datatype HmxScenario = HmxScenario(
    name: string, mode: int, ops: nat, start: int,
    activation: nat, weight: nat, output: nat,
    byDefault: bool, minArch: int)

  /** The operations of one 32 x 32 x 32 multiply-add tile. */
  const TILE_OPS: nat := 65536

  const HMX_SCENARIOS: seq<HmxScenario> := [
    HmxScenario("hmx-resource", PROBE_RESOURCE, 0, 1, 1024, 1024, 16, true, 0),
    HmxScenario("hmx-cached", PROBE_CACHED, 0, 1, 1024, 1024, 16, true, 0),
    HmxScenario("hmx-lock", PROBE_LOCK, 0, 1, 1024, 1024, 16, true, 0),
    HmxScenario("hmx-int8-ub", UB, TILE_OPS, 1, 1024, 1024, 1024, true, 0),
    HmxScenario("hmx-int8-cm-ub", CM_UB, TILE_OPS, 1, 1024, 1024, 1024, true, 0),
    HmxScenario("hmx-int8-uh", UH, TILE_OPS, 1, 1024, 1024, 2048, true, 0),
    HmxScenario("hmx-int8-ub-x16", UB_X16, 16 * TILE_OPS, 1, 1024, 1024, 1024, true, 0),
    HmxScenario("hmx-int8-uh-x16", UH_X16, 16 * TILE_OPS, 1, 1024, 1024, 2048, true, 0),
    HmxScenario("hmx-int8-ub-full-x16", UB_FULL_X16, 32 * TILE_OPS, 1, 1024, 1024, 2048, true, 0),
    HmxScenario("hmx-int8-ub-full-x32", UB_FULL_X32, 64 * TILE_OPS, 1, 1024, 1024, 2048, true, 0),
    HmxScenario("hmx-int8-ub-full-x64", UB_FULL_X64, 128 * TILE_OPS, 1, 1024, 1024, 2048, true, 0),
    HmxScenario("hmx-int8-uh2x2-full-x64", UH2X2_FULL_X64, 256 * TILE_OPS, 1, 1024, 1024, 8192, true, 69),
    HmxScenario("hmx-int8-ub-adeep32", UB_ADEEP32, 32 * TILE_OPS, 1, 32 * 1024, 32 * 1024, 1024, true, 0),
    HmxScenario("hmx-int8-ub-wdeep-full-x64", UB_WDEEP_FULL_X64, 128 * TILE_OPS, 1, 1024, 2048, 2048, true, 0),
    HmxScenario("hmx-fp16-hf-x64", FP16_HF_X64, 64 * TILE_OPS, 1, 2048, 2048, 2048, true, 0),
    HmxScenario("hmx-int4-ub-wn2x-full-x64", INT4_UB_WN2X_FULL_X64, 256 * TILE_OPS, 1, 1024, 1024, 2048, true, 73)]

  /** "all" honours the defaults and the architecture; naming a scenario always selects it. */
  predicate HmxEnabled(filter: string, s: HmxScenario, arch: int) {
    if filter == ALL then s.byDefault && (arch <= 0 || arch >= s.minArch) else Enabled(filter, s.name)
  }

  method IsHmxEnabled(filter: string, s: HmxScenario, arch: int) returns (enabled: bool)
    ensures enabled <==> HmxEnabled(filter, s, arch)
  {
    if filter == ALL {
      return s.byDefault && (arch <= 0 || arch >= s.minArch);
    }
    enabled := ScenarioEnabled(filter, s.name);
  }

  /**
   * A filter joined from plain names enables exactly the scenarios it names, whatever the architecture;
   * the single name "all" enables the default ones whose architecture is unknown or sufficient.
   */
  lemma JoinedHmxFilterEnables(names: seq<string>, s: HmxScenario, arch: int)
    requires PlainNames(names) && s.name != ""
    ensures HmxEnabled(Join(names), s, arch)
      <==> if names == [ALL] then s.byDefault && (arch <= 0 || arch >= s.minArch) else s.name in names
  {
    JoinedFilterSelects(names, s.name);
    if Join(names) == ALL {
      OnlyAllJoinsToAll(names);
    }
  }

  lemma OnlyAllJoinsToAll(names: seq<string>)
    requires PlainNames(names) && Join(names) == ALL
    ensures names == [ALL]
  {
    SplitJoin(names);
    CommaAfter(ALL, "");
    assert Split(ALL) == [ALL];
  }

  /** With the filter "all", only two entries of the table depend on the architecture. */
  lemma AllEnablesByArchitecture(i: nat, arch: int)
    requires i < |HMX_SCENARIOS|
    ensures HmxEnabled(ALL, HMX_SCENARIOS[i], arch)
      <==> !(i == 11 && 0 < arch < 69) && !(i == 15 && 0 < arch < 73)
  {
    if i < 8 {
      assert i == 0 || i == 1 || i == 2 || i == 3 || i == 4 || i == 5 || i == 6 || i == 7;
    } else {
      assert i == 8 || i == 9 || i == 10 || i == 11 || i == 12 || i == 13 || i == 14 || i == 15;
    }
  }

  /** A scenario declares exactly the sizes its mode needs on the DSP, and only probes count no operations. */
  predicate SizesMatch(s: HmxScenario) {
    var shape := ShapeOf(s.mode);
    && shape.Shape? && s.activation == shape.activation && s.weight == shape.weight && s.output == shape.written
    && s.start == 1 && (s.ops == 0 <==> shape.probe)
  }

  /** Every entry of the table, called with its own sizes, passes all argument checks of the DSP. */
  lemma TableMatchesModes(i: nat, repeats: int)
    requires i < |HMX_SCENARIOS| && repeats > 0
    ensures var s := HMX_SCENARIOS[i];
      SizesMatch(s) && CallAccepted(s.activation, s.weight, s.output, s.mode, repeats)
  {
    var s := HMX_SCENARIOS[i];
    if i < 8 {
      assert i == 0 || i == 1 || i == 2 || i == 3 || i == 4 || i == 5 || i == 6 || i == 7;
    } else {
      assert i == 8 || i == 9 || i == 10 || i == 11 || i == 12 || i == 13 || i == 14 || i == 15;
    }
  }

  // ---------------------------------------------------------------------------------------------
  // Buffer sizes

  datatype Which = Activation | Weight | Output

  function SizeOf(s: HmxScenario, which: Which): nat {
    match which
    case Activation => s.activation
    case Weight => s.weight
    case Output => s.output
  }

  /** The least size that holds every enabled scenario: an upper bound that is attained, or zero. */
  method MaxEnabledBytes(table: seq<HmxScenario>, filter: string, arch: int, which: Which) returns (bytes: nat)
    ensures forall i: nat :: i < |table| && HmxEnabled(filter, table[i], arch) ==> SizeOf(table[i], which) <= bytes
    ensures bytes > 0 ==>
      exists i: nat :: i < |table| && HmxEnabled(filter, table[i], arch) && SizeOf(table[i], which) == bytes
  {
    bytes := 0;
    var i := 0;
    while i < |table|
      invariant i <= |table|
      invariant forall j: nat :: j < i && HmxEnabled(filter, table[j], arch) ==> SizeOf(table[j], which) <= bytes
      invariant bytes > 0 ==>
        exists j: nat :: j < i && HmxEnabled(filter, table[j], arch) && SizeOf(table[j], which) == bytes
    {
      var enabled := IsHmxEnabled(filter, table[i], arch);
      if enabled && SizeOf(table[i], which) > bytes {
        bytes := SizeOf(table[i], which);
      }
      i := i + 1;
    }
  }

  // ---------------------------------------------------------------------------------------------
  // Inputs

  /** Half-precision ones for the FP16 mode, byte ones otherwise. */
  function InputByte(mode: int, i: nat): Byte {
    if mode == FP16_HF_X64 then if i % 2 == 0 then 0x00 else 0x3c else 1
  }

  /** The input patterns as the DSP receives them. */
  function InputBytes(mode: int, n: nat): (b: seq<Byte>)
    ensures |b| == n
    ensures forall i: nat :: i < n ==> b[i] == if mode != 18 then 1 else if i % 2 == 0 then 0x00 else 0x3c
  {
    seq(n, i requires 0 <= i < n => InputByte(mode, i))
  }

  /** The FP16 pattern is written in pairs, so an odd last byte is left out. */
  function FilledBytes(mode: int, bytes: nat): nat {
    if mode == FP16_HF_X64 then bytes - bytes % 2 else bytes
  }

  method FillInput(mode: int, data: array<Byte>, bytes: nat)
    requires bytes <= data.Length
    modifies data
    ensures forall i: nat :: i < FilledBytes(mode, bytes) ==> data[i] == InputByte(mode, i)
    ensures forall i: nat :: FilledBytes(mode, bytes) <= i < data.Length ==> data[i] == old(data[i])
  {
    var i := 0;
    if mode == FP16_HF_X64 {
      while i + 1 < bytes
        invariant i <= bytes && i % 2 == 0
        invariant forall j: nat :: j < i ==> data[j] == InputByte(mode, j)
        invariant forall j: nat :: i <= j < data.Length ==> data[j] == old(data[j])
      {
        data[i] := 0x00;
        data[i + 1] := 0x3c;
        i := i + 2;
      }
    } else {
      while i < bytes
        invariant i <= bytes
        invariant forall j: nat :: j < i ==> data[j] == InputByte(mode, j)
        invariant forall j: nat :: i <= j < data.Length ==> data[j] == old(data[j])
      {
        data[i] := 1;
        i := i + 1;
      }
    }
  }

  // ---------------------------------------------------------------------------------------------
  // The doubling run

  /** One remote call: lost with the transport's error, or handled by the DSP; and how long it took. */
  datatype HmxCall = HmxCall(lost: int, reply: HmxReply, elapsed: real)

  ghost predicate PlausibleWorld(world: nat -> HmxCall, mode: int, held: set<Word>) {
    forall call: nat :: Plausible(world(call).reply, mode, held)
  }

  /** The call arrives, every stage the mode takes is granted, the room check passes and the tile exists. */
  ghost predicate Succeeds(call: HmxCall, s: HmxScenario)
    requires SizesMatch(s)
  {
    var a := call.reply.answers;
    && call.lost == 0 && Acquires(a, s.mode)
    && (s.mode < 100 ==>
          && !RoomRefused(a.pointer, a.granted, Required(s.mode))
          && !(s.mode == 15 && call.reply.arch < 69) && !(s.mode == 19 && call.reply.arch < 73))
  }

  /** What a call hands back; bytes are those of the output buffer, which was cleared before. */
  ghost predicate Answered(call: HmxCall, s: HmxScenario, repeats: int, out: Outcome, bytes: seq<Byte>)
    requires SizesMatch(s) && repeats > 0
  {
    if call.lost != 0 then out == Outcome(call.lost, 0, 0) && bytes == Zeros(s.output)
    else
      Exit(call.reply, s.mode, repeats, InputBytes(s.mode, s.activation), InputBytes(s.mode, s.weight), out,
           Zeros(s.output), bytes)
  }

  lemma AnsweredSucceeds(call: HmxCall, s: HmxScenario, repeats: int, out: Outcome, bytes: seq<Byte>)
    requires SizesMatch(s) && repeats > 0 && Answered(call, s, repeats, out, bytes)
    requires forall i: nat, seen: Inputs :: |call.reply.tiles(i, seen)| == s.output
    ensures out.err == 0 <==> Succeeds(call, s)
    ensures out.err == 0 ==> |bytes| == s.output && out.checksum == HmxOutputChecksum(bytes)
    ensures out.err != 0 ==> out == Outcome(out.err, 0, 0)
  {
    hide Acquires, AcquireResult, Required, HmxOutputChecksum, WordBytes, Flag, RoomRefused, ShapeOf, OthersGrant;
    ModeTakes(s.mode);
    assert bytes[..s.output] == bytes || |bytes| < s.output;
  }

  lemma EvenInputs(s: HmxScenario)
    requires SizesMatch(s)
    ensures FilledBytes(s.mode, s.activation) == s.activation && FilledBytes(s.mode, s.weight) == s.weight
  {
  }

  method PrepareBuffers(s: HmxScenario, activation: array<Byte>, weight: array<Byte>, output: array<Byte>)
    requires SizesMatch(s) && activation != weight && activation != output && weight != output
    requires s.activation <= activation.Length && s.weight <= weight.Length && s.output <= output.Length
    modifies activation, weight, output
    ensures activation[..s.activation] == InputBytes(s.mode, s.activation)
    ensures weight[..s.weight] == InputBytes(s.mode, s.weight)
    ensures output[..s.output] == Zeros(s.output)
  {
    EvenInputs(s);
    FillInput(s.mode, activation, s.activation);
    FillInput(s.mode, weight, s.weight);
    WriteFront(output, Zeros(s.output));
  }

  /** Fills the inputs, clears the output and makes one call. */
  method HmxRound(mgr: ResourceManager, call: HmxCall, s: HmxScenario, repeats: int,
                  activation: array<Byte>, weight: array<Byte>, output: array<Byte>) returns (out: Outcome)
    requires mgr.Valid() && Plausible(call.reply, s.mode, mgr.held) && SizesMatch(s) && 0 < repeats <= INT_MAX
    requires activation != weight && activation != output && weight != output
    requires s.activation <= activation.Length && s.weight <= weight.Length && s.output <= output.Length
    modifies mgr, activation, weight, output
    ensures mgr.Valid() && mgr.held == old(mgr.held) && mgr.cached == old(mgr.cached) && mgr.locked == old(mgr.locked)
    ensures CallAccepted(s.activation, s.weight, s.output, s.mode, repeats)
    ensures Answered(call, s, repeats, out, output[..s.output])
    ensures activation[..s.activation] == InputBytes(s.mode, s.activation)
    ensures weight[..s.weight] == InputBytes(s.mode, s.weight)
  {
    hide Exit, CallAccepted, InputBytes, FilledBytes, Plausible, Zeros;
    CallAccepts(s, repeats);
    PrepareBuffers(s, activation, weight, output);
    ghost var cleared := output[..];
    assert output[..s.output] == Zeros(s.output);
    if call.lost != 0 {
      return Outcome(call.lost, 0, 0);
    }
    out := BenchHmxInt8(mgr, call.reply, activation, s.activation, weight, s.weight, output, s.output, s.mode, repeats);
    PlausibleTiles(call.reply, s, mgr.held);
    ExitInFront(call.reply, s.mode, repeats, activation[..s.activation], weight[..s.weight], out, cleared, output[..],
                s.output);
    assert cleared[..s.output] == Zeros(s.output) && output[..][..s.output] == output[..s.output];
  }

  lemma CallAccepts(s: HmxScenario, repeats: int)
    requires SizesMatch(s) && repeats > 0
    ensures CallAccepted(s.activation, s.weight, s.output, s.mode, repeats)
  {
  }

  lemma PlausibleTiles(reply: HmxReply, s: HmxScenario, held: set<Word>)
    requires SizesMatch(s) && Plausible(reply, s.mode, held)
    ensures forall i: nat, seen: Inputs :: |reply.tiles(i, seen)| == s.output
  {
  }

  /** The repeats of call j. */
  ghost function RepeatsAt(opt: Options, j: nat): int {
    if opt.iterations > 0 then opt.iterations else Doubled(1, j)
  }

  /** The repeats of the calls made so far, every one of which passes the argument checks of the DSP. */
  ghost predicate CallsMade(opt: Options, s: HmxScenario, made: seq<int>) {
    forall j: nat :: j < |made| ==>
      made[j] == RepeatsAt(opt, j) && CallAccepted(s.activation, s.weight, s.output, s.mode, made[j])
  }

  lemma MadeOneMore(opt: Options, s: HmxScenario, made: seq<int>, repeats: int)
    requires CallsMade(opt, s, made) && SizesMatch(s) && repeats > 0 && repeats == RepeatsAt(opt, |made|)
    ensures CallsMade(opt, s, made + [repeats])
  {
  }

  /** A call after which the repeats are doubled. */
  ghost predicate TooShortCall(opt: Options, call: HmxCall, s: HmxScenario, repeats: int)
    requires SizesMatch(s)
  {
    Succeeds(call, s) && call.elapsed < opt.minMs as real && repeats < MAX_HMX_REPEATS
  }

  /** The calls before call k all were, and doubling was allowed at all. */
  ghost predicate Doubling(opt: Options, world: nat -> HmxCall, s: HmxScenario, k: nat)
    requires SizesMatch(s)
  {
    && (k > 0 ==> opt.iterations == 0 && s.ops != 0)
    && forall j: nat :: j < k ==> TooShortCall(opt, world(j), s, Doubled(1, j))
  }

  lemma DoublingNone(opt: Options, world: nat -> HmxCall, s: HmxScenario)
    requires SizesMatch(s) && ValidOptions(opt)
    ensures Doubling(opt, world, s, 0) && s.start == 1 && CallsMade(opt, s, [])
    ensures RepeatsAt(opt, 0) == if opt.iterations > 0 then opt.iterations else s.start
  {
  }

  lemma DoublingOneMore(opt: Options, world: nat -> HmxCall, s: HmxScenario, k: nat)
    requires SizesMatch(s) && Doubling(opt, world, s, k) && opt.iterations == 0 && s.ops != 0
    requires TooShortCall(opt, world(k), s, RepeatsAt(opt, k))
    ensures Doubling(opt, world, s, k + 1) && RepeatsAt(opt, k + 1) == 2 * RepeatsAt(opt, k)
    ensures RepeatsAt(opt, k + 1) <= MAX_HMX_REPEATS
  {
    HmxRounds(opt, world, s, k + 1);
  }

  /** At most 24 doublings, and never more than 2^24 repeats. */
  lemma HmxRounds(opt: Options, world: nat -> HmxCall, s: HmxScenario, k: nat)
    requires SizesMatch(s) && Doubling(opt, world, s, k)
    ensures k <= 24 && Doubled(1, k) <= MAX_HMX_REPEATS
  {
    Pow2Add(6, 6);
    Pow2Add(12, 12);
    var at := (j: nat) => Totals(0, 0, 0, 0.0);
    forall j: nat | j < k
      ensures Escalates(at, j, 1, 1, Pow2(24))
    {
      assert TooShortCall(opt, world(j), s, Doubled(1, j));
    }
    EscalationFromOne(at, k, 1, 24);
  }

  /** A run that reports: its totals are those of call k, the first that is long enough or the last allowed. */
  ghost predicate Reported(opt: Options, world: nat -> HmxCall, s: HmxScenario, k: nat, totals: Measured,
                           bytes: seq<Byte>)
    requires SizesMatch(s) && ValidOptions(opt)
  {
    RepeatsPositive(opt, k);
    && Doubling(opt, world, s, k) && totals.Totals? && totals.count == RepeatsAt(opt, k)
    && totals.elapsed == world(k).elapsed
    && Answered(world(k), s, RepeatsAt(opt, k), Outcome(AEE_SUCCESS, totals.cycles, totals.checksum), bytes)
    && (s.ops == 0 || opt.iterations > 0 || totals.elapsed >= opt.minMs as real
        || RepeatsAt(opt, k) == MAX_HMX_REPEATS)
  }

  /** A run that fails: call k is the first that does, and the error is its own. */
  ghost predicate Ended(opt: Options, world: nat -> HmxCall, s: HmxScenario, k: nat, err: int, bytes: seq<Byte>)
    requires SizesMatch(s) && ValidOptions(opt)
  {
    RepeatsPositive(opt, k);
    && Doubling(opt, world, s, k) && !Succeeds(world(k), s) && err != 0
    && Answered(world(k), s, RepeatsAt(opt, k), Outcome(err, 0, 0), bytes)
  }

  lemma RepeatsPositive(opt: Options, j: nat)
    requires ValidOptions(opt)
    ensures RepeatsAt(opt, j) > 0
  {
    DoubledIsMultiple(1, j);
  }

  /**
   * One HMX scenario: doubled from its start, never beyond 2^24 without a user's count, a probe only
   * once. The result is that of the last call alone, exit by exit. However many calls are made and
   * however each ends, the resource ledger is left as it was.
   */
  method RunHmxInt8(mgr: ResourceManager, world: nat -> HmxCall, opt: Options, s: HmxScenario,
                    activation: array<Byte>, weight: array<Byte>, output: array<Byte>)
    returns (err: int, totals: Measured, k: nat, ghost made: seq<int>)
    requires mgr.Valid() && PlausibleWorld(world, s.mode, mgr.held) && ValidOptions(opt) && SizesMatch(s)
    requires activation != weight && activation != output && weight != output
    requires s.activation <= activation.Length && s.weight <= weight.Length && s.output <= output.Length
    modifies mgr, activation, weight, output
    ensures mgr.Valid() && mgr.held == old(mgr.held) && mgr.cached == old(mgr.cached) && mgr.locked == old(mgr.locked)
    ensures err == 0 ==> Reported(opt, world, s, k, totals, output[..s.output])
    ensures err != 0 ==> totals == Failed(err) && Ended(opt, world, s, k, err, output[..s.output])
    ensures k <= 24 && (k > 0 ==> Doubled(1, k) <= MAX_HMX_REPEATS)
    ensures CallsMade(opt, s, made) && |made| == k + 1
  {
    hide Doubled, RepeatsAt, Doubling, Answered, Succeeds, CallsMade, SizesMatch, Plausible, PlausibleWorld,
         CallAccepted;
    DoublingNone(opt, world, s);
    made := [];
    var repeats := if opt.iterations > 0 then opt.iterations else s.start;
    ghost var held := mgr.held;
    k := 0;
    while true
      invariant mgr.Valid() && mgr.held == held && mgr.cached == old(mgr.cached) && mgr.locked == old(mgr.locked)
      invariant repeats == RepeatsAt(opt, k) && 0 < repeats <= INT_MAX
      invariant opt.iterations <= 0 ==> repeats <= MAX_HMX_REPEATS
      invariant Doubling(opt, world, s, k) && CallsMade(opt, s, made) && |made| == k
      decreases 2 * MAX_HMX_REPEATS - repeats
    {
      HmxRounds(opt, world, s, k);
      PlausibleCall(world, k, s.mode, mgr.held);
      var out := HmxRound(mgr, world(k), s, repeats, activation, weight, output);
      PlausibleTiles(world(k).reply, s, mgr.held);
      AnsweredSucceeds(world(k), s, repeats, out, output[..s.output]);
      MadeOneMore(opt, s, made, repeats);
      made := made + [repeats];
      if out.err != 0 {
        return out.err, Failed(out.err), k, made;
      }
      totals := Totals(repeats, out.cycles, out.checksum, world(k).elapsed);
      if s.ops == 0 || opt.iterations > 0 || totals.elapsed >= opt.minMs as real
         || repeats >= MAX_HMX_REPEATS {
        return 0, totals, k, made;
      }
      DoublingOneMore(opt, world, s, k);
      repeats := repeats * 2;
      k := k + 1;
    }
  }

  lemma PlausibleCall(world: nat -> HmxCall, k: nat, mode: int, held: set<Word>)
    requires PlausibleWorld(world, mode, held)
    ensures Plausible(world(k).reply, mode, held)
  {
  }

  // ---------------------------------------------------------------------------------------------
  // All HMX scenarios of a run

  /** The enabled entries among the first k, in table order. */
  function EnabledBelow(table: seq<HmxScenario>, filter: string, arch: int, k: nat): seq<nat>
    requires k <= |table|
  {
    if k == 0 then []
    else if HmxEnabled(filter, table[k - 1], arch) then EnabledBelow(table, filter, arch, k - 1) + [k - 1]
    else EnabledBelow(table, filter, arch, k - 1)
  }

  lemma {:induction false} EnabledPrefix(table: seq<HmxScenario>, filter: string, arch: int, i: nat, k: nat)
    requires i <= k <= |table|
    ensures EnabledBelow(table, filter, arch, i) <= EnabledBelow(table, filter, arch, k)
  {
    if i < k {
      EnabledPrefix(table, filter, arch, i, k - 1);
    }
  }

  datatype HmxRow = HmxRow(index: nat, totals: Measured)

  /** Successful rows of exactly these entries, in this order. */
  predicate RowsOf(rows: seq<HmxRow>, entries: seq<nat>) {
    |rows| == |entries| && forall p: nat :: p < |rows| ==> rows[p].index == entries[p] && rows[p].totals.Totals?
  }

  /** Where the loop over the table stands before entry i. */
  predicate Passed(table: seq<HmxScenario>, filter: string, arch: int, memory: bool, i: nat, rows: seq<HmxRow>,
                   allocations: nat)
  {
    && i <= |table| && RowsOf(rows, EnabledBelow(table, filter, arch, i))
    && allocations == (if rows == [] then 0 else 1) && (rows != [] ==> memory)
  }

  /**
   * What a run reports. Without an error the rows are those of exactly the enabled entries; with one,
   * of those before the entry that failed; and without memory nothing but the error.
   */
  predicate Reports(table: seq<HmxScenario>, filter: string, arch: int, memory: bool, err: int, rows: seq<HmxRow>,
                    allocations: nat)
  {
    var enabled := EnabledBelow(table, filter, arch, |table|);
    && allocations <= 1 && (enabled == [] ==> allocations == 0)
    && (err == 0 ==> RowsOf(rows, enabled) && (enabled != [] ==> allocations == 1))
    && (err != 0 ==> |rows| < |enabled| && RowsOf(rows, enabled[..|rows|]))
    && (!memory && enabled != [] ==> err == -ENOMEM && rows == [])
  }

  lemma PassedNone(table: seq<HmxScenario>, filter: string, arch: int, memory: bool)
    ensures Passed(table, filter, arch, memory, 0, [], 0)
  {
  }

  lemma PassedSkipped(table: seq<HmxScenario>, filter: string, arch: int, memory: bool, i: nat, rows: seq<HmxRow>,
                      allocations: nat)
    requires Passed(table, filter, arch, memory, i, rows, allocations)
    requires i < |table| && !HmxEnabled(filter, table[i], arch)
    ensures Passed(table, filter, arch, memory, i + 1, rows, allocations)
  {
  }

  lemma PassedOneMore(table: seq<HmxScenario>, filter: string, arch: int, memory: bool, i: nat, rows: seq<HmxRow>,
                      allocations: nat, totals: Measured)
    requires Passed(table, filter, arch, memory, i, rows, allocations)
    requires i < |table| && HmxEnabled(filter, table[i], arch) && totals.Totals? && memory
    ensures Passed(table, filter, arch, memory, i + 1, rows + [HmxRow(i, totals)], 1)
  {
    assert EnabledBelow(table, filter, arch, i + 1) == EnabledBelow(table, filter, arch, i) + [i];
  }

  lemma StoppedAt(table: seq<HmxScenario>, filter: string, arch: int, memory: bool, i: nat, rows: seq<HmxRow>,
                  allocations: nat, err: int, made: nat)
    requires Passed(table, filter, arch, memory, i, rows, allocations)
    requires i < |table| && HmxEnabled(filter, table[i], arch)
    requires err != 0 && made <= 1 && (!memory ==> err == -ENOMEM)
    ensures Reports(table, filter, arch, memory, err, rows, made)
  {
    EnabledPrefix(table, filter, arch, i + 1, |table|);
  }

  lemma PassedAll(table: seq<HmxScenario>, filter: string, arch: int, memory: bool, rows: seq<HmxRow>,
                  allocations: nat)
    requires Passed(table, filter, arch, memory, |table|, rows, allocations)
    ensures Reports(table, filter, arch, memory, 0, rows, allocations)
  {
  }

  /** A world for every entry, each plausible for the modes of the table. */
  ghost predicate PlausibleTable(world: nat -> nat -> HmxCall, table: seq<HmxScenario>, held: set<Word>) {
    forall i: nat :: i < |table| ==> SizesMatch(table[i]) && PlausibleWorld(world(i), table[i].mode, held)
  }

  predicate Fits(s: HmxScenario, activation: nat, weight: nat, output: nat) {
    s.activation <= activation && s.weight <= weight && s.output <= output
  }

  /** The totals are those of a run of this entry in its own world. */
  ghost predicate EntryReported(opt: Options, world: nat -> HmxCall, s: HmxScenario, totals: Measured)
    requires SizesMatch(s) && ValidOptions(opt)
  {
    exists k: nat, bytes: seq<Byte> :: Reported(opt, world, s, k, totals, bytes)
  }

  ghost predicate EntryEnded(opt: Options, world: nat -> HmxCall, s: HmxScenario, err: int)
    requires SizesMatch(s) && ValidOptions(opt)
  {
    exists k: nat, bytes: seq<Byte> :: Ended(opt, world, s, k, err, bytes)
  }

  ghost predicate RowTells(opt: Options, world: nat -> nat -> HmxCall, table: seq<HmxScenario>, row: HmxRow)
    requires ValidOptions(opt)
  {
    row.index < |table| && SizesMatch(table[row.index])
    && EntryReported(opt, world(row.index), table[row.index], row.totals)
  }

  ghost predicate RowsTell(opt: Options, world: nat -> nat -> HmxCall, table: seq<HmxScenario>, rows: seq<HmxRow>)
    requires ValidOptions(opt)
  {
    forall p: nat :: p < |rows| ==> RowTells(opt, world, table, rows[p])
  }

  lemma RowsTellMore(opt: Options, world: nat -> nat -> HmxCall, table: seq<HmxScenario>, rows: seq<HmxRow>, i: nat,
                     totals: Measured)
    requires ValidOptions(opt) && RowsTell(opt, world, table, rows) && i < |table| && SizesMatch(table[i])
    requires EntryReported(opt, world(i), table[i], totals)
    ensures RowsTell(opt, world, table, rows + [HmxRow(i, totals)])
  {
    var all := rows + [HmxRow(i, totals)];
    forall p: nat | p < |all|
      ensures RowTells(opt, world, table, all[p])
    {
      if p < |rows| {
        assert RowTells(opt, world, table, rows[p]);
      }
    }
  }

  /** Entry i was enabled and reached after these rows, and its run failed. */
  ghost predicate StoppedBy(opt: Options, world: nat -> nat -> HmxCall, table: seq<HmxScenario>, filter: string,
                            arch: int, rows: seq<HmxRow>, i: nat, err: int)
    requires ValidOptions(opt)
  {
    i < |table| && HmxEnabled(filter, table[i], arch) && |EnabledBelow(table, filter, arch, i)| == |rows|
    && SizesMatch(table[i]) && EntryEnded(opt, world(i), table[i], err)
  }

  lemma StoppedHere(opt: Options, world: nat -> nat -> HmxCall, table: seq<HmxScenario>, filter: string, arch: int,
                    memory: bool, rows: seq<HmxRow>, i: nat, allocations: nat, err: int)
    requires ValidOptions(opt) && Passed(table, filter, arch, memory, i, rows, allocations)
    requires i < |table| && HmxEnabled(filter, table[i], arch) && SizesMatch(table[i])
    requires EntryEnded(opt, world(i), table[i], err)
    ensures StoppedBy(opt, world, table, filter, arch, rows, i, err)
  {
    hide EntryEnded, SizesMatch, HmxEnabled;
  }

  /** Buffers for the largest enabled entries hold what any enabled entry needs. */
  method AllocateBuffers(table: seq<HmxScenario>, filter: string, arch: int)
    returns (activation: array<Byte>, weight: array<Byte>, output: array<Byte>)
    ensures fresh(activation) && fresh(weight) && fresh(output)
    ensures RoomForAll(table, filter, arch, activation, weight, output)
  {
    var a := MaxEnabledBytes(table, filter, arch, Activation);
    var w := MaxEnabledBytes(table, filter, arch, Weight);
    var o := MaxEnabledBytes(table, filter, arch, Output);
    forall i: nat | i < |table| && HmxEnabled(filter, table[i], arch)
      ensures Fits(table[i], a, w, o)
    {
      assert SizeOf(table[i], Activation) <= a && SizeOf(table[i], Weight) <= w && SizeOf(table[i], Output) <= o;
    }
    activation, weight, output := new Byte[a], new Byte[w], new Byte[o];
  }

  /**
   * The HMX part of a run. The buffers are allocated once, when the first enabled entry is reached, and
   * are large enough for every call made. Without an error the rows are those of exactly the enabled
   * entries, in table order; with one, of those before the entry that failed. The resource ledger is left
   * as it was, whatever happened.
   */
  method RunHmxScenarios(mgr: ResourceManager, world: nat -> nat -> HmxCall, opt: Options, table: seq<HmxScenario>,
                         filter: string, arch: int, memory: bool)
    returns (err: int, rows: seq<HmxRow>, ghost allocations: nat)
    requires mgr.Valid() && ValidOptions(opt) && PlausibleTable(world, table, mgr.held)
    modifies mgr
    ensures mgr.Valid() && mgr.held == old(mgr.held) && mgr.cached == old(mgr.cached) && mgr.locked == old(mgr.locked)
    ensures Reports(table, filter, arch, memory, err, rows, allocations) && RowsTell(opt, world, table, rows)
    ensures err != 0 && memory ==> exists i: nat :: StoppedBy(opt, world, table, filter, arch, rows, i, err)
  {
    hide Passed, Reports, EnabledBelow, HmxEnabled, PlausibleTable, RoomForAll, RowTells, StoppedBy, EntryReported,
         EntryEnded, SizesMatch;
    ghost var held, cached, locked := mgr.held, mgr.cached, mgr.locked;
    var activation, weight, output := new Byte[0], new Byte[0], new Byte[0];
    var ready := false;
    err, rows, allocations := 0, [], 0;
    PassedNone(table, filter, arch, memory);
    var i := 0;
    while i < |table|
      invariant i <= |table| && err == 0 && Passed(table, filter, arch, memory, i, rows, allocations)
      invariant allocations == (if ready then 1 else 0) && RowsTell(opt, world, table, rows)
      invariant ready ==> memory && RoomForAll(table, filter, arch, activation, weight, output)
      invariant fresh(activation) && fresh(weight) && fresh(output)
      invariant mgr.Valid() && mgr.held == held && mgr.cached == cached && mgr.locked == locked
    {
      var enabled := IsHmxEnabled(filter, table[i], arch);
      if enabled {
        ghost var before := allocations;
        if !ready {
          if !memory {
            StoppedAt(table, filter, arch, memory, i, rows, before, -ENOMEM, before);
            return -ENOMEM, rows, before;
          }
          activation, weight, output := AllocateBuffers(table, filter, arch);
          ready, allocations := true, allocations + 1;
        }
        var totals;
        err, totals := RunEntry(mgr, world, opt, table, filter, arch, i, activation, weight, output);
        if err != 0 {
          StoppedAt(table, filter, arch, memory, i, rows, before, err, allocations);
          StoppedHere(opt, world, table, filter, arch, memory, rows, i, before, err);
          return;
        }
        PassedOneMore(table, filter, arch, memory, i, rows, before, totals);
        RowsTellMore(opt, world, table, rows, i, totals);
        rows := rows + [HmxRow(i, totals)];
      } else {
        PassedSkipped(table, filter, arch, memory, i, rows, allocations);
      }
      i := i + 1;
    }
    PassedAll(table, filter, arch, memory, rows, allocations);
  }

  /** The buffers differ and hold what any enabled entry needs. */
  ghost predicate RoomForAll(table: seq<HmxScenario>, filter: string, arch: int,
                             activation: array<Byte>, weight: array<Byte>, output: array<Byte>) {
    && activation != weight && activation != output && weight != output
    && forall i: nat :: i < |table| && HmxEnabled(filter, table[i], arch) ==>
         Fits(table[i], activation.Length, weight.Length, output.Length)
  }

  method RunEntry(mgr: ResourceManager, world: nat -> nat -> HmxCall, opt: Options, table: seq<HmxScenario>,
                  filter: string, arch: int, i: nat,
                  activation: array<Byte>, weight: array<Byte>, output: array<Byte>)
    returns (err: int, totals: Measured)
    requires mgr.Valid() && ValidOptions(opt) && PlausibleTable(world, table, mgr.held)
    requires i < |table| && HmxEnabled(filter, table[i], arch)
    requires RoomForAll(table, filter, arch, activation, weight, output)
    modifies mgr, activation, weight, output
    ensures mgr.Valid() && mgr.held == old(mgr.held) && mgr.cached == old(mgr.cached) && mgr.locked == old(mgr.locked)
    ensures SizesMatch(table[i])
    ensures err == 0 ==> totals.Totals? && EntryReported(opt, world(i), table[i], totals)
    ensures err != 0 ==> EntryEnded(opt, world(i), table[i], err)
  {
    hide SizesMatch, HmxEnabled, PlausibleWorld, Ended, CallsMade;
    assert Fits(table[i], activation.Length, weight.Length, output.Length);
    var k;
    ghost var made;
    err, totals, k, made := RunHmxInt8(mgr, world(i), opt, table[i], activation, weight, output);
    assert err == 0 ==> Reported(opt, world(i), table[i], k, totals, output[..table[i].output]);
    assert err != 0 ==> Ended(opt, world(i), table[i], k, err, output[..table[i].output]);
  }

  /** The same for the host's own table: any plausible outside world will do. */
  method RunHostHmx(mgr: ResourceManager, world: nat -> nat -> HmxCall, opt: Options, filter: string, arch: int,
                    memory: bool) returns (err: int, rows: seq<HmxRow>, ghost allocations: nat)
    requires mgr.Valid() && ValidOptions(opt)
    requires forall i: nat :: i < |HMX_SCENARIOS| ==> PlausibleWorld(world(i), HMX_SCENARIOS[i].mode, mgr.held)
    modifies mgr
    ensures mgr.Valid() && mgr.held == old(mgr.held) && mgr.cached == old(mgr.cached) && mgr.locked == old(mgr.locked)
    ensures Reports(HMX_SCENARIOS, filter, arch, memory, err, rows, allocations)
    ensures RowsTell(opt, world, HMX_SCENARIOS, rows)
    ensures err != 0 && memory ==> exists i: nat :: StoppedBy(opt, world, HMX_SCENARIOS, filter, arch, rows, i, err)
  {
    forall i: nat | i < |HMX_SCENARIOS|
      ensures SizesMatch(HMX_SCENARIOS[i])
    {
      TableMatchesModes(i, 1);
    }
    err, rows, allocations := RunHmxScenarios(mgr, world, opt, HMX_SCENARIOS, filter, arch, memory);
  }
}
