/** One HMX benchmark call on the DSP: mode table, VTCM layout, staging, and every exit. */
module HmxBench {
  import opened Words
  import opened Errors
  import opened Checksum
  import opened Vectors
  import opened ComputeKernels
  import opened HmxResource

  const TILE_U8: nat := 1024
  const TILE_U16: nat := 2048
  const TILE_U16_2X2: nat := 8192
  const DEEP_TILES: nat := 32
  const BIAS: nat := 256

  const UB: int := 0
  const CM_UB: int := 1
  const UH: int := 2
  const UB_X16: int := 10
  const UH_X16: int := 11
  const UB_FULL_X16: int := 12
  const UB_FULL_X32: int := 13
  const UB_FULL_X64: int := 14
  const UH2X2_FULL_X64: int := 15
  const UB_ADEEP32: int := 16
  const UB_WDEEP_FULL_X64: int := 17
  const FP16_HF_X64: int := 18
  const INT4_UB_WN2X_FULL_X64: int := 19
  const PROBE_RESOURCE: int := 100
  const PROBE_CACHED: int := 101
  const PROBE_LOCK: int := 102

  /** What a mode needs: input bytes staged, output bytes written, and how the resource is taken. */
  datatype Shape =
    | UnknownMode
    | Shape(activation: nat, weight: nat, written: nat, probe: bool, useCached: bool, useLock: bool)

  function ShapeOf(mode: int): (s: Shape)
    ensures s.Shape? ==> s.activation <= 0x8000 && TILE_U8 <= s.weight <= 0x8000 && s.written <= 0x2000
    ensures s.Shape? && s.probe ==> s.written == 16
  {
    if mode == UB || mode == CM_UB || mode == UB_X16 then Shape(TILE_U8, TILE_U8, TILE_U8, false, true, true)
    else if mode == UB_ADEEP32 then Shape(DEEP_TILES * TILE_U8, DEEP_TILES * TILE_U8, TILE_U8, false, true, true)
    else if mode == UB_WDEEP_FULL_X64 then Shape(TILE_U8, 2 * TILE_U8, TILE_U16, false, true, true)
    else if mode == FP16_HF_X64 then Shape(TILE_U16, TILE_U16, TILE_U16, false, true, true)
    else if mode == UB_FULL_X16 || mode == UB_FULL_X32 || mode == UB_FULL_X64 || mode == INT4_UB_WN2X_FULL_X64
      || mode == UH || mode == UH_X16 then Shape(TILE_U8, TILE_U8, TILE_U16, false, true, true)
    else if mode == UH2X2_FULL_X64 then Shape(TILE_U8, TILE_U8, TILE_U16_2X2, false, true, true)
    else if mode == PROBE_RESOURCE then Shape(TILE_U8, TILE_U8, 16, true, false, false)
    else if mode == PROBE_CACHED then Shape(TILE_U8, TILE_U8, 16, true, true, false)
    else if mode == PROBE_LOCK then Shape(TILE_U8, TILE_U8, 16, true, true, true)
    else UnknownMode
  }

  /**
   * By mode number: which modes exist, which of them only probe, and which take the cached hold and the
   * lock. The first probe takes neither, the second the hold alone, and all other modes both.
   */
  lemma ModeTakes(mode: int)
    ensures ShapeOf(mode).Shape? <==> 0 <= mode <= 2 || 10 <= mode <= 19 || 100 <= mode <= 102
    ensures ShapeOf(mode).Shape? ==>
      var s := ShapeOf(mode);
      && (s.probe <==> mode >= 100) && (s.useCached <==> mode != 100) && (s.useLock <==> mode != 100 && mode != 101)
  {
  }

  /** The bytes of tightly coupled memory a mode needs, with 128 to spare for alignment. */
  function Required(mode: int): (r: Word)
    requires ShapeOf(mode).Shape?
    ensures r < 0x2_0000
  {
    var s := ShapeOf(mode);
    s.activation + s.weight + TILE_U8 + BIAS + s.written + 128
  }

  /** By mode number, in bytes. */
  lemma RequiredByMode(mode: int)
    requires ShapeOf(mode).Shape?
    ensures Required(mode)
      == if mode == 0 || mode == 1 || mode == 10 then 4480 else if mode == 15 then 11648
         else if mode == 16 then 67968 else if mode == 17 then 6528 else if mode == 18 then 7552
         else if mode >= 100 then 3472 else 5504
  {
  }

  /** Only the modes with version-dependent tile instructions can be missing on an architecture. */
  predicate TileSupported(mode: int, arch: int) {
    (mode == UH2X2_FULL_X64 ==> arch >= 69) && (mode == INT4_UB_WN2X_FULL_X64 ==> arch >= 73)
  }

  /** The argument checks made before anything is acquired. */
  predicate CallAccepted(activationLen: int, weightLen: int, outputLen: int, mode: int, repeats: int) {
    var s := ShapeOf(mode);
    repeats > 0 && s.Shape? && s.activation <= activationLen && s.weight <= weightLen && s.written <= outputLen
  }

  // ---------------------------------------------------------------------------------------------
  // Address arithmetic and layout

  /** The masking idiom of the source clears exactly the remainder. */
  lemma MaskClearsRemainder(v: bv32)
    ensures v & !127 == v - v % 128
    ensures v & !4095 == v - v % 4096
  {
  }

  /** Rounding up in 32-bit arithmetic. */
  function AlignUp(value: Word, alignment: nat): Word
    requires 0 < alignment
  {
    var v := (value + alignment - 1) % WORD32;
    v - v % alignment
  }

  /** The size asked of the resource manager. */
  function Requested(mode: int): Word
    requires ShapeOf(mode).Shape?
  {
    AlignUp(Required(mode), 4096)
  }

  /** The room check of the source, in 32-bit arithmetic. */
  predicate RoomRefused(base: Word, size: Word, required: Word) {
    (AlignUp(base, 128) + required) % WORD32 > (base + size) % WORD32
  }

  lemma AlignUpBounds(value: Word, alignment: nat)
    requires 0 < alignment && value + alignment - 1 < WORD32
    ensures value <= AlignUp(value, alignment) < value + alignment
    ensures AlignUp(value, alignment) % alignment == 0
  {
    var v := value + alignment - 1;
    QuotientIs(v, WORD32, 0, v);
    assert AlignUp(value, alignment) == v - v % alignment;
    QuotientIs(v - v % alignment, alignment, v / alignment, 0);
  }

  /** The least multiple of 128 not below an address, which may lie beyond the address space. */
  function Aligned(base: Word): (a: nat)
    ensures base <= a < base + 128 && a % 128 == 0 && a <= WORD32
  {
    (base + 127) / 128 * 128
  }

  /** The 32-bit result is that address, wrapped. */
  lemma AlignUpWraps(base: Word)
    ensures AlignUp(base, 128) == Aligned(base) % WORD32
  {
    var v := base + 127;
    if v < WORD32 {
      QuotientIs(v, WORD32, 0, v);
    } else {
      QuotientIs(v, WORD32, 1, v - WORD32);
      QuotientIs(v - WORD32, 128, 0, v - WORD32);
    }
  }

  /** There is no room, over unbounded integers. */
  predicate NoRoom(base: Word, size: Word, required: Word) {
    Aligned(base) + required > base + size
  }

  /** Both sums of the check leave the address space, or neither does. */
  predicate WrapsAlike(base: Word, size: Word, required: Word) {
    Aligned(base) + required >= WORD32 <==> base + size >= WORD32
  }

  lemma WrappedSum(base: Word, required: Word)
    ensures (AlignUp(base, 128) + required) % WORD32 == (Aligned(base) + required) % WORD32
  {
    AlignUpWraps(base);
    ModAddLeft(Aligned(base), required, WORD32);
  }

  /** What a sum below 2^33 becomes in 32 bits. */
  lemma WrapOnce(sum: nat)
    requires sum < 2 * WORD32
    ensures sum % WORD32 == if sum < WORD32 then sum else sum - WORD32
  {
    QuotientIs(sum, WORD32, if sum < WORD32 then 0 else 1, if sum < WORD32 then sum else sum - WORD32);
  }

  /** For any block, the 32-bit check decides whether there is room exactly when both its sums wrap alike. */
  lemma RoomCheckExact(base: Word, size: Word, required: Word)
    requires required + 128 <= WORD32
    ensures (RoomRefused(base, size, required) <==> NoRoom(base, size, required)) <==> WrapsAlike(base, size, required)
  {
    WrappedSum(base, required);
    WrapOnce(Aligned(base) + required);
    WrapOnce(base + size);
  }

  /** A block too small for the mode, near the end of the address space, that the check lets through. */
  lemma RoomCheckWitness()
    ensures var base, size := WORD32 - 0x400, 0x200;
      !RoomRefused(base, size, Required(UB)) && NoRoom(base, size, Required(UB))
  {
    var base, size := WORD32 - 0x400, 0x200;
    WrappedSum(base, Required(UB));
    WrapOnce(Aligned(base) + Required(UB));
    WrapOnce(base + size);
  }

  /** Every measuring mode needs 384 bytes modulo 1024. */
  lemma RequiredResidue(mode: int)
    requires ShapeOf(mode).Shape? && !ShapeOf(mode).probe
    ensures Required(mode) % 1024 == 384
  {
  }

  datatype Layout = Layout(activation: nat, weight: nat, weight2: nat, bias: nat, output: nat, end: nat)

  function LayoutAt(aligned: nat, s: Shape): Layout
    requires s.Shape?
  {
    var weight := aligned + s.activation;
    var weight2 := weight + s.weight;
    var bias := weight2 + TILE_U8;
    var output := bias + BIAS;
    Layout(aligned, weight, weight2, bias, output, output + s.written)
  }

  lemma RequestedLeavesRoom(mode: int)
    requires ShapeOf(mode).Shape? && !ShapeOf(mode).probe
    ensures Requested(mode) >= Required(mode) + 640
  {
    RequiredResidue(mode);
    AlignUpBounds(Required(mode), 4096);
  }

  /**
   * A block of the requested size, anywhere in the address space, has room; yet it is refused if, and
   * only if, it ends exactly at 2^32, where its end address becomes zero.
   */
  lemma GrantedRequestRefusedIff(mode: int, base: Word, size: Word)
    requires ShapeOf(mode).Shape? && !ShapeOf(mode).probe
    requires base + size <= WORD32 && size >= Requested(mode)
    ensures !NoRoom(base, size, Required(mode))
    ensures RoomRefused(base, size, Required(mode)) <==> base + size == WORD32
  {
    var required := Required(mode);
    RequestedLeavesRoom(mode);
    assert Aligned(base) + required < base + size;
    WrappedSum(base, required);
    WrapOnce(Aligned(base) + required);
    WrapOnce(base + size);
  }

  /** A block the check lets through although there is no room for the mode in it. */
  predicate Overlooked(base: Word, size: Word, required: Word) {
    !RoomRefused(base, size, required) && NoRoom(base, size, required)
  }

  /** For blocks inside the address space: exactly when the check's own sum wraps and the block's end does not. */
  lemma OverlookedIff(base: Word, size: Word, required: Word)
    requires required + 128 <= WORD32 && base + size <= WORD32
    ensures Overlooked(base, size, required) <==> Aligned(base) + required >= WORD32 > base + size
  {
    WrappedSum(base, required);
    WrapOnce(Aligned(base) + required);
    WrapOnce(base + size);
  }

  /** Whenever the check lets a block through rightly, the five regions are aligned, disjoint and inside the block. */
  lemma LayoutFits(mode: int, base: Word, size: Word)
    requires ShapeOf(mode).Shape? && !ShapeOf(mode).probe
    requires !NoRoom(base, size, Required(mode))
    ensures var l, s := LayoutAt(Aligned(base), ShapeOf(mode)), ShapeOf(mode);
      && l.activation % 128 == 0 && l.weight % 128 == 0 && l.weight2 % 128 == 0 && l.bias % 128 == 0
      && l.output % 128 == 0
      && base <= l.activation && l.activation + s.activation == l.weight && l.weight + s.weight == l.weight2
      && l.weight2 + TILE_U8 == l.bias && l.bias + BIAS == l.output && l.output + s.written == l.end
      && l.end + 128 <= base + size
  {
  }

  // ---------------------------------------------------------------------------------------------
  // Byte blocks

  function Zeros(n: nat): (z: seq<Byte>)
    ensures |z| == n && forall i: nat :: i < n ==> z[i] == 0
  {
    seq(n, _ => 0)
  }

  /** Copies bytes into a block and touches nothing else. */
  method WriteBytes(dst: array<Byte>, at: nat, bytes: seq<Byte>)
    requires at + |bytes| <= dst.Length
    modifies dst
    ensures dst[at..at + |bytes|] == bytes
    ensures forall p :: 0 <= p < at || at + |bytes| <= p < dst.Length ==> dst[p] == old(dst[p])
  {
    var i := 0;
    while i < |bytes|
      invariant i <= |bytes|
      invariant dst[at..at + i] == bytes[..i]
      invariant forall p :: 0 <= p < at || at + |bytes| <= p < dst.Length ==> dst[p] == old(dst[p])
    {
      dst[at + i] := bytes[i];
      assert dst[at..at + i + 1] == dst[at..at + i] + [bytes[i]];
      i := i + 1;
    }
  }

  /** Half-precision ones in the low half of each scale word below byte n, zero elsewhere. */
  function ScalesBelow(n: nat): (z: seq<Byte>)
    ensures |z| == BIAS
  {
    seq(BIAS, j requires 0 <= j < BIAS => if j < n && j % 4 == 1 then 0x3c else 0)
  }

  function Fp16Scales(): (z: seq<Byte>)
    ensures |z| == BIAS
  {
    ScalesBelow(128)
  }

  lemma ScalesStep(i: nat)
    requires i + 4 <= 128 && i % 4 == 0
    ensures ScalesBelow(i)[i := 0x00][i + 1 := 0x3c] == ScalesBelow(i + 4)
  {
  }

  method InitFp16Scales(block: array<Byte>, at: nat)
    requires at + BIAS <= block.Length
    modifies block
    ensures block[at..at + BIAS] == Fp16Scales()
    ensures forall p :: 0 <= p < at || at + BIAS <= p < block.Length ==> block[p] == old(block[p])
  {
    WriteBytes(block, at, Zeros(BIAS));
    assert Zeros(BIAS) == ScalesBelow(0);
    var i := 0;
    while i < 128
      invariant 0 <= i <= 128 && i % 4 == 0
      invariant block[at..at + BIAS] == ScalesBelow(i)
      invariant forall p :: 0 <= p < at || at + BIAS <= p < block.Length ==> block[p] == old(block[p])
    {
      ghost var before := block[at..at + BIAS];
      block[at + i] := 0x00;
      block[at + i + 1] := 0x3c;
      assert block[at..at + BIAS] == before[i := 0x00][i + 1 := 0x3c];
      ScalesStep(i);
      i := i + 4;
    }
  }

  /** Half-precision ones for 32 columns in the FP16 mode; no bias in the others. */
  function BiasFor(mode: int): (z: seq<Byte>)
    ensures |z| == BIAS
    ensures forall i: nat :: i < BIAS ==> z[i] == if mode == 18 && i < 128 && i % 4 == 1 then 0x3c else 0
  {
    if mode == FP16_HF_X64 then Fp16Scales() else Zeros(BIAS)
  }

  /** The inputs of the tile instructions, as they must stand in the block on every repeat. */
  ghost predicate Staged(block: seq<Byte>, l: Layout, activation: seq<Byte>, weight: seq<Byte>, mode: int)
  {
    && l.activation <= l.weight <= l.weight2 <= l.bias <= l.output <= |block|
    && TILE_U8 <= |weight|
    && block[l.activation..l.weight] == activation
    && block[l.weight..l.weight2] == weight
    && block[l.weight2..l.bias] == weight[..TILE_U8]
    && block[l.bias..l.output] == BiasFor(mode)
  }

  /** What the tile instructions see: activation, weight, its first tile once more, and bias. */
  datatype Inputs = Inputs(activation: seq<Byte>, weight: seq<Byte>, weight2: seq<Byte>, bias: seq<Byte>)

  /** The output the tile instructions leave on a given repeat, as an unknown function of what they see. */
  type Tiles = (nat, Inputs) -> seq<Byte>

  function InputsOf(mode: int, activation: seq<Byte>, weight: seq<Byte>): (seen: Inputs)
    requires TILE_U8 <= |weight|
    ensures seen.activation == activation && seen.weight == weight && seen.weight2 == weight[..1024]
    ensures seen.bias == BiasFor(mode)
  {
    Inputs(activation, weight, weight[..TILE_U8], BiasFor(mode))
  }

  method Stage(block: array<Byte>, l: Layout, activation: seq<Byte>, weight: seq<Byte>, mode: int, written: nat)
    requires TILE_U8 <= |weight|
    requires l.activation + |activation| == l.weight && l.weight + |weight| == l.weight2
    requires l.weight2 + TILE_U8 == l.bias && l.bias + BIAS == l.output && l.output + written == l.end <= block.Length
    modifies block
    ensures Staged(block[..], l, activation, weight, mode)
    ensures block[l.output..l.end] == Zeros(written)
    ensures forall p :: 0 <= p < l.activation || l.end <= p < block.Length ==> block[p] == old(block[p])
  {
    WriteBytes(block, l.activation, activation);
    WriteBytes(block, l.weight, weight);
    WriteBytes(block, l.weight2, weight[..TILE_U8]);
    if mode == FP16_HF_X64 {
      InitFp16Scales(block, l.bias);
    } else {
      WriteBytes(block, l.bias, Zeros(BIAS));
    }
    WriteBytes(block, l.output, Zeros(written));
  }

  // ---------------------------------------------------------------------------------------------
  // cdsp_peak_bench_hmx_int8

  ghost predicate Acquires(a: Answers, mode: int)
    requires ShapeOf(mode).Shape?
  {
    a.apiPresent && StagesSucceed(a, STAGES, Required(mode), ShapeOf(mode).useCached, ShapeOf(mode).useLock)
  }

  lemma AcquiresIff(a: Answers, mode: int, err: int)
    requires ShapeOf(mode).Shape?
    requires AcquireResult(a, Required(mode), ShapeOf(mode).useCached, ShapeOf(mode).useLock, err)
    ensures err == AEE_SUCCESS <==> Acquires(a, mode)
  {
    if err != AEE_SUCCESS && a.apiPresent {
      var k: nat :| k < STAGES && FailsAt(a, k, Required(mode), ShapeOf(mode).useCached, ShapeOf(mode).useLock, err);
      assert !StagesSucceed(a, STAGES, Required(mode), ShapeOf(mode).useCached, ShapeOf(mode).useLock);
    }
  }

  /** Everything but the cached hold and the lock is granted. */
  predicate OthersGrant(a: Answers, required: Word) {
    && a.apiPresent && !(a.queryPresent && a.queryErr == 0 && a.available < required)
    && a.initErr == 0 && a.cacheModeErr == 0 && a.vtcmParamErr == 0 && a.hmxParamErr == 0
    && a.rctx != 0 && a.pointerErr == 0 && a.pointer != 0
  }

  /** A refused hold or lock ends exactly the modes that take it. */
  lemma Refusals(a: Answers, mode: int, err: int)
    requires ShapeOf(mode).Shape? && OthersGrant(a, Required(mode))
    requires AcquireResult(a, Required(mode), ShapeOf(mode).useCached, ShapeOf(mode).useLock, err)
    ensures err == if mode != 100 && a.cachedErr != 0 then HmxError(6, a.cachedErr)
                   else if mode != 100 && mode != 101 && a.lockErr != 0 then HmxError(8, a.lockErr)
                   else AEE_SUCCESS
  {
    ModeTakes(mode);
    AcquireResultIs(a, Required(mode), ShapeOf(mode).useCached, ShapeOf(mode).useLock, err);
  }

  function WordBytes(w: Word): (b: seq<Byte>)
    ensures |b| == 4 && LoadWord(b, 0) == w
  {
    BytesMakeWord(w);
    [ByteOf(w, 0), ByteOf(w, 1), ByteOf(w, 2), ByteOf(w, 3)]
  }

  /** A truth value as a word. */
  function Flag(on: bool): (b: seq<Byte>)
    ensures |b| == 4 && LoadWord(b, 0) == if on then 1 else 0
  {
    [if on then 1 else 0, 0, 0, 0]
  }

  lemma FourWords(p: seq<Byte>, q: seq<Byte>, r: seq<Byte>, s: seq<Byte>)
    requires |p| == |q| == |r| == |s| == 4
    ensures var b := p + q + r + s; b[..4] == p && b[4..8] == q && b[8..12] == r && b[12..16] == s
  {
  }

  /** The block lies in the address space, and is not one that the room check overlooks. */
  predicate WellPlaced(a: Answers, mode: int)
    requires ShapeOf(mode).Shape?
  {
    a.pointer + a.granted <= WORD32 && !Overlooked(a.pointer, a.granted, Required(mode))
  }

  /** Runs all repeats; each tile sees the staged inputs and writes only the output region. */
  method RunTiles(block: array<Byte>, l: Layout, activation: seq<Byte>, weight: seq<Byte>, mode: int,
                  repeats: nat, tiles: Tiles)
    requires l.output <= l.end <= block.Length
    requires Staged(block[..], l, activation, weight, mode)
    requires repeats > 0 && forall i: nat, seen: Inputs :: |tiles(i, seen)| == l.end - l.output
    modifies block
    ensures block[l.output..l.end] == tiles(repeats - 1, InputsOf(mode, activation, weight))
    ensures Staged(block[..], l, activation, weight, mode)
  {
    var i := 0;
    while i < repeats
      invariant i <= repeats
      invariant Staged(block[..], l, activation, weight, mode)
      invariant i > 0 ==> block[l.output..l.end] == tiles(i - 1, InputsOf(mode, activation, weight))
    {
      var seen := Inputs(block[l.activation..l.weight], block[l.weight..l.weight2], block[l.weight2..l.bias],
                         block[l.bias..l.output]);
      assert seen == InputsOf(mode, activation, weight);
      WriteBytes(block, l.output, tiles(i, seen));
      i := i + 1;
    }
  }

  /** The four words of a probe: the context, the granted size and the two flags. */
  method ReportProbe(output: array<Byte>, rctx: Word, size: Word, cached: bool, locked: bool) returns (out: Outcome)
    requires 16 <= output.Length
    modifies output
    ensures out == Outcome(AEE_SUCCESS, 0, HmxOutputChecksum(output[..16]))
    ensures output[..4] == WordBytes(rctx) && output[4..8] == WordBytes(size)
    ensures output[8..12] == Flag(cached) && output[12..16] == Flag(locked) && output[16..] == old(output[16..])
  {
    hide WordBytes, Flag, HmxOutputChecksum, LoadWord;
    WriteBytes(output, 0, Zeros(16));
    var words := WordBytes(rctx) + WordBytes(size) + Flag(cached) + Flag(locked);
    FourWords(WordBytes(rctx), WordBytes(size), Flag(cached), Flag(locked));
    WriteBytes(output, 0, words);
    var sum := ChecksumHmxOutput(output, 16);
    assert output[0..0 + 16] == output[..16];
    assert output[..4] == words[..4] && output[4..8] == words[4..8];
    assert output[8..12] == words[8..12] && output[12..16] == words[12..16];
    return Outcome(AEE_SUCCESS, 0, sum);
  }

  lemma AlignedInside(base: Word, size: Word, required: Word)
    requires base + size <= WORD32 && required > 0 && !NoRoom(base, size, required)
    ensures AlignUp(base, 128) == Aligned(base)
  {
    AlignUpWraps(base);
    WrapOnce(Aligned(base));
  }

  method WriteFront(output: array<Byte>, data: seq<Byte>)
    requires |data| <= output.Length
    modifies output
    ensures output[..] == data + old(output[..])[|data|..]
  {
    ghost var before := output[..];
    WriteBytes(output, 0, data);
    assert output[..] == output[0..0 + |data|] + before[|data|..];
  }

  /** Stages the inputs in the block granted at address vtcm, runs the tiles, and copies the result out. */
  method Measure(block: array<Byte>, vtcm: Word, arch: int, tiles: Tiles, ticks: DWord,
                 activation: array<Byte>, weight: array<Byte>, output: array<Byte>, mode: int, repeats: int)
    returns (out: Outcome)
    requires block != activation && block != weight && block != output && output != activation && output != weight
    requires CallAccepted(activation.Length, weight.Length, output.Length, mode, repeats) && !ShapeOf(mode).probe
    requires block.Length < WORD32 && vtcm + block.Length <= WORD32 && !NoRoom(vtcm, block.Length, Required(mode))
    requires forall i: nat, seen: Inputs :: |tiles(i, seen)| == ShapeOf(mode).written
    modifies block, output
    ensures var s := ShapeOf(mode);
      var tile := tiles(repeats - 1, InputsOf(mode, activation[..s.activation], weight[..s.weight]));
      if TileSupported(mode, arch) then
        out == Outcome(AEE_SUCCESS, ticks, HmxOutputChecksum(tile))
        && output[..] == tile + old(output[..])[s.written..]
      else
        out == Outcome(AEE_EUNSUPPORTED, 0, 0) && output[..] == Zeros(s.written) + old(output[..])[s.written..]
  {
    var s := ShapeOf(mode);
    LayoutFits(mode, vtcm, block.Length);
    AlignedInside(vtcm, block.Length, Required(mode));
    var l := LayoutAt(AlignUp(vtcm, 128) - vtcm, s);
    Stage(block, l, activation[..s.activation], weight[..s.weight], mode, s.written);
    WriteFront(output, Zeros(s.written));
    if !TileSupported(mode, arch) {
      return Outcome(AEE_EUNSUPPORTED, 0, 0);
    }
    RunTiles(block, l, activation[..s.activation], weight[..s.weight], mode, repeats, tiles);
    WriteFront(output, block[l.output..l.end]);
    assert output[..s.written] == tiles(repeats - 1, InputsOf(mode, activation[..s.activation], weight[..s.weight]));
    var sum := ChecksumHmxOutput(output, s.written);
    return Outcome(AEE_SUCCESS, ticks, sum);
  }

  /** What the outside world contributes to one call. */
  datatype HmxReply = HmxReply(answers: Answers, arch: int, tiles: Tiles, ticks: DWord)

  /** The reply fits the mode: a fresh context, a well placed block, and tiles of the size written. */
  ghost predicate Plausible(reply: HmxReply, mode: int, held: set<Word>) {
    && reply.answers.rctx !in held
    && (ShapeOf(mode).Shape? && !ShapeOf(mode).probe ==> WellPlaced(reply.answers, mode))
    && (ShapeOf(mode).Shape? ==> forall i: nat, seen: Inputs :: |reply.tiles(i, seen)| == ShapeOf(mode).written)
  }

  /**
   * Every exit of an accepted call: the first refused stage; a probe, with the four words it writes; a
   * block without room; a tile the architecture does not have; and a measurement. before and after are
   * the output buffer, of which no more than the mode's bytes are written, and at a refusal none.
   */
  ghost predicate Exit(reply: HmxReply, mode: int, repeats: int, activation: seq<Byte>, weight: seq<Byte>,
                       out: Outcome, before: seq<Byte>, after: seq<Byte>)
    requires ShapeOf(mode).Shape? && TILE_U8 <= |weight| && repeats > 0 && ShapeOf(mode).written <= |before|
  {
    var written, a := ShapeOf(mode).written, reply.answers;
    if !Acquires(a, mode) then
      out == Outcome(out.err, 0, 0) && out.err != 0 && after == before
      && AcquireResult(a, Required(mode), mode != 100, mode != 100 && mode != 101, out.err)
      && (OthersGrant(a, Required(mode)) && a.lockErr == 0 ==> out.err == HmxError(6, a.cachedErr))
      && (OthersGrant(a, Required(mode)) && a.cachedErr == 0 ==> out.err == HmxError(8, a.lockErr))
    else if mode >= 100 then
      && |after| == |before| && after[16..] == before[16..]
      && after[..4] == WordBytes(a.rctx) && after[4..8] == WordBytes(a.granted)
      && after[8..12] == Flag(mode != 100) && after[12..16] == Flag(mode == 102)
      && out == Outcome(AEE_SUCCESS, 0, HmxOutputChecksum(after[..16]))
    else if RoomRefused(a.pointer, a.granted, Required(mode)) then
      out == Outcome(AEE_ENOMEMORY, 0, 0) && after == before
    else if (mode == 15 && reply.arch < 69) || (mode == 19 && reply.arch < 73) then
      out == Outcome(AEE_EUNSUPPORTED, 0, 0) && after == Zeros(written) + before[written..]
    else
      var tile := reply.tiles(repeats - 1, InputsOf(mode, activation, weight));
      out == Outcome(AEE_SUCCESS, reply.ticks, HmxOutputChecksum(tile)) && after == tile + before[written..]
  }

  /** The words a successful probe writes, read back by mode number. */
  lemma ProbeWords(reply: HmxReply, mode: int, repeats: int, activation: seq<Byte>, weight: seq<Byte>, out: Outcome,
                   before: seq<Byte>, after: seq<Byte>)
    requires 100 <= mode <= 102 && TILE_U8 <= |weight| && repeats > 0 && |before| >= 16
    requires ShapeOf(mode).Shape? && ShapeOf(mode).written == 16
    requires Exit(reply, mode, repeats, activation, weight, out, before, after) && out.err == 0
    ensures |after| >= 16 && LoadWord(after, 0) == reply.answers.rctx && LoadWord(after, 4) == reply.answers.granted
    ensures LoadWord(after, 8) == (if mode == 100 then 0 else 1)
    ensures LoadWord(after, 12) == (if mode == 102 then 1 else 0)
  {
    hide WordBytes, Flag, WordOf, Acquires, AcquireResult, Required, HmxOutputChecksum;
    LoadSlice(after, 0);
    LoadSlice(after, 4);
    LoadSlice(after, 8);
    LoadSlice(after, 12);
  }

  lemma LoadSlice(s: seq<Byte>, at: nat)
    requires at + 4 <= |s|
    ensures LoadWord(s, at) == LoadWord(s[at..at + 4], 0)
  {
    hide WordOf;
  }

  /** What happens to the front of the output buffer. */
  lemma ExitInFront(reply: HmxReply, mode: int, repeats: int, activation: seq<Byte>, weight: seq<Byte>, out: Outcome,
                    before: seq<Byte>, after: seq<Byte>, n: nat)
    requires ShapeOf(mode).Shape? && TILE_U8 <= |weight| && repeats > 0 && ShapeOf(mode).written == n <= |before|
    requires Exit(reply, mode, repeats, activation, weight, out, before, after)
    requires forall i: nat, seen: Inputs :: |reply.tiles(i, seen)| == n
    ensures |after| == |before| && Exit(reply, mode, repeats, activation, weight, out, before[..n], after[..n])
  {
    hide WordBytes, Flag, Acquires, AcquireResult, Required, HmxOutputChecksum, OthersGrant, RoomRefused, ShapeOf;
    ModeTakes(mode);
    if Acquires(reply.answers, mode) && mode >= 100 {
      assert after[..16][..16] == after[..16];
      assert after[..16][..4] == after[..4] && after[..16][4..8] == after[4..8];
      assert after[..16][8..12] == after[8..12] && after[..16][12..16] == after[12..16];
    }
  }

  /**
   * One call. Whatever the runtime answers, the manager's ledger is the same afterwards; the outcome
   * and the output buffer are determined exit by exit. What the tile instructions leave in the output
   * region is an input.
   */
  method BenchHmxInt8(mgr: ResourceManager, reply: HmxReply, activation: array?<Byte>, activationLen: int,
                      weight: array?<Byte>, weightLen: int, output: array?<Byte>, outputLen: int,
                      mode: int, repeats: int) returns (out: Outcome)
    requires mgr.Valid() && Plausible(reply, mode, mgr.held)
    requires activation != null ==> activationLen <= activation.Length && output != activation
    requires weight != null ==> weightLen <= weight.Length && output != weight
    requires output != null ==> outputLen <= output.Length
    modifies mgr, output
    ensures mgr.Valid() && mgr.held == old(mgr.held) && mgr.cached == old(mgr.cached) && mgr.locked == old(mgr.locked)
    ensures out.err == 0 ==> output != null && ShapeOf(mode).Shape? && ShapeOf(mode).written <= output.Length
    ensures out.err == 0 ==> out.checksum == HmxOutputChecksum(output[..ShapeOf(mode).written])
    ensures activation == null || weight == null || output == null
      ==> out == Outcome(AEE_EBADPARM, 0, 0) && (output != null ==> output[..] == old(output[..]))
    ensures activation != null && weight != null && output != null ==>
      if !CallAccepted(activationLen, weightLen, outputLen, mode, repeats) then
        out == Outcome(AEE_EBADPARM, 0, 0) && output[..] == old(output[..])
      else
        var s := ShapeOf(mode);
        Exit(reply, mode, repeats, activation[..s.activation], weight[..s.weight], out, old(output[..]), output[..])
  {
    hide HmxOutputChecksum, AlignUp, Zeros, Acquires, AcquireResult, ShapeOf, Required, WordBytes, Flag, HmxError;
    if activation == null || weight == null || output == null || repeats <= 0 {
      return Outcome(AEE_EBADPARM, 0, 0);
    }
    var s := ShapeOf(mode);
    if s.UnknownMode? || activationLen < s.activation || weightLen < s.weight || outputLen < s.written {
      return Outcome(AEE_EBADPARM, 0, 0);
    }
    var required := Required(mode);
    var resource := new Resource();
    var err := resource.AcquireAll(mgr, required, s.useCached, s.useLock, reply.answers);
    AcquiresIff(reply.answers, mode, err);
    ModeTakes(mode);
    if err != 0 {
      if OthersGrant(reply.answers, required) {
        Refusals(reply.answers, mode, err);
      }
      return Outcome(err, 0, 0);
    }
    if s.probe {
      out := ReportProbe(output, resource.rctx, resource.vtcmSize, resource.cached, resource.locked);
      resource.ReleaseAll(mgr);
      return;
    }
    var base := AlignUp(resource.vtcm, 128);
    if (base + required) % WORD32 > (resource.vtcm + resource.vtcmSize) % WORD32 {
      resource.ReleaseAll(mgr);
      return Outcome(AEE_ENOMEMORY, 0, 0);
    }
    var block := new Byte[resource.vtcmSize];
    out := Measure(block, resource.vtcm, reply.arch, reply.tiles, reply.ticks,
                   activation, weight, output, mode, repeats);
    resource.ReleaseAll(mgr);
  }
}
