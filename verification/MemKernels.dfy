/** The memory benchmarks of the DSP over byte buffers accessed one 128-byte vector at a time. */
module MemKernels {
  import opened Words
  import opened Errors
  import opened Checksum
  import opened Vectors
  import opened ComputeKernels

  /** The largest length whose sampling index, stepping by 4096, never leaves the int range. */
  const MAX_SAMPLED: int := 0x7fff_f000

  // ---------------------------------------------------------------------------------------------
  // Vector loads and stores, little-endian

  function LoadVector(s: seq<Byte>, i: nat): Vector
    requires VECTOR_BYTES * (i + 1) <= |s|
  {
    seq(LANES, l requires 0 <= l < LANES => LoadWord(s, VECTOR_BYTES * i + 4 * l))
  }

  function StoredByte(v: Vector, j: nat): Byte
    requires j < VECTOR_BYTES
  {
    ByteOf(v[j / 4], j % 4)
  }

  lemma StoreAfterLoad(s: seq<Byte>, i: nat, j: nat)
    requires VECTOR_BYTES * (i + 1) <= |s| && j < VECTOR_BYTES
    ensures StoredByte(LoadVector(s, i), j) == s[VECTOR_BYTES * i + j]
  {
    var at := VECTOR_BYTES * i + 4 * (j / 4);
    BytesOfWord(s[at], s[at + 1], s[at + 2], s[at + 3]);
  }

  predicate OutsideVector(p: nat, i: nat) {
    p < VECTOR_BYTES * i || VECTOR_BYTES * (i + 1) <= p
  }

  method StoreVector(dst: array<Byte>, i: nat, value: Vector)
    requires VECTOR_BYTES * (i + 1) <= dst.Length
    modifies dst
    ensures forall j: nat :: j < VECTOR_BYTES ==> dst[VECTOR_BYTES * i + j] == StoredByte(value, j)
    ensures forall p: nat :: p < dst.Length && OutsideVector(p, i) ==> dst[p] == old(dst[p])
  {
    var k := 0;
    while k < VECTOR_BYTES
      invariant k <= VECTOR_BYTES
      invariant forall j: nat :: j < k ==> dst[VECTOR_BYTES * i + j] == StoredByte(value, j)
      invariant forall p: nat :: p < dst.Length && OutsideVector(p, i) ==> dst[p] == old(dst[p])
    {
      dst[VECTOR_BYTES * i + k] := StoredByte(value, k);
      k := k + 1;
    }
  }

  // ---------------------------------------------------------------------------------------------
  // The accumulator law

  /** The unwrapped sum of lane l over the first n vectors. */
  function LaneTotal(s: seq<Byte>, n: nat, l: nat): nat
    requires VECTOR_BYTES * n <= |s| && l < LANES
  {
    if n == 0 then 0 else LaneTotal(s, n - 1, l) + LoadVector(s, n - 1)[l]
  }

  /** One lane of the accumulator after r full passes over n vectors and i vectors of the next pass. */
  function PassLane(s: seq<Byte>, n: nat, r: nat, i: nat, l: nat): Word
    requires VECTOR_BYTES * n <= |s| && i <= n && l < LANES
  {
    (r * LaneTotal(s, n, l) + LaneTotal(s, i, l)) % WORD32
  }

  function PassAccumulator(s: seq<Byte>, n: nat, r: nat, i: nat): Vector
    requires VECTOR_BYTES * n <= |s| && i <= n
  {
    seq(LANES, l requires 0 <= l < LANES => PassLane(s, n, r, i, l))
  }

  /** repeats times the sum of the first n vectors, lane by lane, modulo 2^32. */
  function StreamAccumulator(s: seq<Byte>, n: nat, repeats: nat): Vector
    requires VECTOR_BYTES * n <= |s|
  {
    seq(LANES, l requires 0 <= l < LANES => repeats * LaneTotal(s, n, l) % WORD32)
  }

  lemma LaneStep(passes: nat, total: nat, w: nat)
    ensures ((passes + total) % WORD32 + w) % WORD32 == (passes + (total + w)) % WORD32
  {
    ModAddLeft(passes + total, w, WORD32);
  }

  lemma LaneTotalGrows(s: seq<Byte>, i: nat, l: nat)
    requires VECTOR_BYTES * (i + 1) <= |s| && l < LANES
    ensures LaneTotal(s, i + 1, l) == LaneTotal(s, i, l) + LoadVector(s, i)[l]
  {
  }

  lemma PassLaneStep(s: seq<Byte>, n: nat, r: nat, i: nat, l: nat)
    requires VECTOR_BYTES * n <= |s| && i < n && l < LANES
    ensures (PassLane(s, n, r, i, l) + LoadVector(s, i)[l]) % WORD32 == PassLane(s, n, r, i + 1, l)
  {
    hide LaneTotal, LoadVector;
    LaneTotalGrows(s, i, l);
    LaneStep(r * LaneTotal(s, n, l), LaneTotal(s, i, l), LoadVector(s, i)[l]);
  }

  lemma PassStep(s: seq<Byte>, n: nat, r: nat, i: nat)
    requires VECTOR_BYTES * n <= |s| && i < n
    ensures VAdd(PassAccumulator(s, n, r, i), LoadVector(s, i)) == PassAccumulator(s, n, r, i + 1)
  {
    var v := LoadVector(s, i);
    forall l: nat | l < LANES
      ensures (PassLane(s, n, r, i, l) + v[l]) % WORD32 == PassLane(s, n, r, i + 1, l)
    {
      PassLaneStep(s, n, r, i, l);
    }
  }

  lemma PassEnds(s: seq<Byte>, n: nat, r: nat)
    requires VECTOR_BYTES * n <= |s|
    ensures PassAccumulator(s, n, r, n) == PassAccumulator(s, n, r + 1, 0)
    ensures PassAccumulator(s, n, r, 0) == StreamAccumulator(s, n, r)
    ensures PassAccumulator(s, n, 0, 0) == ZERO
  {
    forall l: nat | l < LANES
      ensures r * LaneTotal(s, n, l) + LaneTotal(s, n, l) == (r + 1) * LaneTotal(s, n, l)
    {
    }
  }

  /** Sums start at zero. */
  lemma StreamStarts(s: seq<Byte>, n: nat, repeats: nat)
    requires VECTOR_BYTES * n <= |s|
    ensures StreamAccumulator(s, n, 0) == ZERO && StreamAccumulator(s, 0, repeats) == ZERO
  {
    forall l: nat | l < LANES
      ensures StreamAccumulator(s, n, 0)[l] == 0 && StreamAccumulator(s, 0, repeats)[l] == 0
    {
      assert LaneTotal(s, 0, l) == 0;
      hide LaneTotal;
    }
  }

  /** One more repeat adds the sum of one pass. */
  lemma StreamRepeats(s: seq<Byte>, n: nat, repeats: nat)
    requires VECTOR_BYTES * n <= |s|
    ensures StreamAccumulator(s, n, repeats + 1) == VAdd(StreamAccumulator(s, n, repeats), StreamAccumulator(s, n, 1))
  {
    hide LaneTotal;
    var more := VAdd(StreamAccumulator(s, n, repeats), StreamAccumulator(s, n, 1));
    forall l: nat | l < LANES
      ensures StreamAccumulator(s, n, repeats + 1)[l] == more[l]
    {
      OneMoreLane(repeats, LaneTotal(s, n, l));
    }
  }

  lemma OneMoreLane(repeats: nat, total: nat)
    ensures (repeats + 1) * total % WORD32 == (repeats * total % WORD32 + 1 * total % WORD32) % WORD32
  {
    assert (repeats + 1) * total == repeats * total + total;
    ModAddBoth(repeats * total, total);
  }

  /** The sum of one pass grows by the vector that is read. */
  lemma StreamGrows(s: seq<Byte>, n: nat)
    requires VECTOR_BYTES * (n + 1) <= |s|
    ensures StreamAccumulator(s, n + 1, 1) == VAdd(StreamAccumulator(s, n, 1), LoadVector(s, n))
  {
    var more := VAdd(StreamAccumulator(s, n, 1), LoadVector(s, n));
    forall l: nat | l < LANES
      ensures StreamAccumulator(s, n + 1, 1)[l] == more[l]
    {
      GrowLane(s, n, l);
    }
  }

  lemma GrowLane(s: seq<Byte>, n: nat, l: nat)
    requires VECTOR_BYTES * (n + 1) <= |s| && l < LANES
    ensures 1 * LaneTotal(s, n + 1, l) % WORD32 == (1 * LaneTotal(s, n, l) % WORD32 + LoadVector(s, n)[l]) % WORD32
  {
    hide LaneTotal, LoadVector;
    LaneTotalGrows(s, n, l);
    ModAddLeft(LaneTotal(s, n, l), LoadVector(s, n)[l], WORD32);
  }

  // ---------------------------------------------------------------------------------------------
  // cdsp_peak_bench_mem_read

  function ReadOutcome(src: seq<Byte>, repeats: int, ticks: DWord): Outcome {
    if repeats <= 0 || |src| < VECTOR_BYTES then Outcome(AEE_EBADPARM, 0, 0)
    else Outcome(AEE_SUCCESS, ticks, VectorChecksum(StreamAccumulator(src, |src| / VECTOR_BYTES, repeats)))
  }

  method BenchMemRead(unit: VectorUnit, src: array?<Byte>, srcLen: int, repeats: int, ticks: DWord)
    returns (out: Outcome)
    requires src != null && srcLen > 0 ==> srcLen <= src.Length
    modifies unit`sink0
    ensures src == null || srcLen <= 0 ==> out == Outcome(AEE_EBADPARM, 0, 0)
    ensures src != null && srcLen > 0 ==> out == ReadOutcome(src[..srcLen], repeats, ticks)
    ensures out.err != 0 ==> unit.sink0 == old(unit.sink0)
    ensures out.err == 0 ==> unit.sink0 == StreamAccumulator(src[..srcLen], srcLen / VECTOR_BYTES, repeats)
    ensures out.err == 0 <==> src != null && srcLen >= 128 && repeats > 0
    ensures out.err == 0 ==> out.cycles == ticks && out.checksum == VectorChecksum(unit.sink0)
    ensures out.err != 0 ==> out == Outcome(AEE_EBADPARM, 0, 0)
  {
    var nvec := Truncated(srcLen, VECTOR_BYTES);
    var acc := ZERO;
    if src == null || srcLen <= 0 || repeats <= 0 || nvec <= 0 {
      return Outcome(AEE_EBADPARM, 0, 0);
    }
    ghost var s := src[..srcLen];
    PassEnds(s, nvec, 0);
    var r := 0;
    while r < repeats
      invariant 0 <= r <= repeats
      invariant acc == PassAccumulator(s, nvec, r, 0)
    {
      var i := 0;
      while i < nvec
        invariant 0 <= i <= nvec
        invariant acc == PassAccumulator(s, nvec, r, i)
      {
        PassStep(s, nvec, r, i);
        acc := VAdd(acc, LoadVector(src[..srcLen], i));
        i := i + 1;
      }
      PassEnds(s, nvec, r);
      r := r + 1;
    }
    PassEnds(s, nvec, repeats);
    unit.sink0 := acc;
    var checksum := ChecksumVector(acc);
    return Outcome(AEE_SUCCESS, ticks, checksum);
  }

  // ---------------------------------------------------------------------------------------------
  // checksum_bytes

  /** The sum of the first k samples, one every 4096 bytes. */
  function Samples(data: seq<Byte>, k: nat): nat
    requires k == 0 || 4096 * (k - 1) < |data|
  {
    if k == 0 then 0 else Samples(data, k - 1) + data[4096 * (k - 1)]
  }

  function SampleCount(len: nat): nat {
    (len + 4095) / 4096
  }

  function ByteChecksum(data: seq<Byte>): nat {
    if data == [] then 0 else Samples(data, SampleCount(|data|)) + data[|data| - 1]
  }

  lemma {:induction false} SamplesBound(data: seq<Byte>, k: nat)
    requires k == 0 || 4096 * (k - 1) < |data|
    ensures Samples(data, k) <= 0xff * k
  {
    if k == 0 {
    } else {
      SamplesBound(data, k - 1);
    }
  }

  /** How often a position is counted: once per 4096 bytes, and once as the last one. */
  function Weight(p: nat, len: nat): nat {
    (if p % 4096 == 0 then 1 else 0) + if p == len - 1 then 1 else 0
  }

  lemma {:induction false} SamplesUpdate(data: seq<Byte>, p: nat, b: Byte, k: nat)
    requires p < |data| && (k == 0 || 4096 * (k - 1) < |data|)
    ensures Samples(data[p := b], k)
      == Samples(data, k) + if p % 4096 == 0 && p < 4096 * k then b - data[p] else 0
  {
    if k > 0 {
      SamplesUpdate(data, p, b, k - 1);
      if p == 4096 * (k - 1) {
        QuotientIs(p, 4096, k - 1, 0);
      } else if p % 4096 == 0 && p < 4096 * k {
        NextSample(p, k);
      }
    }
  }

  lemma NextSample(p: nat, k: nat)
    requires k > 0 && p % 4096 == 0 && p < 4096 * k && p != 4096 * (k - 1)
    ensures p < 4096 * (k - 1)
  {
  }

  /** Exactly what the sampled sum sees of a change of one byte: the difference, as often as it is counted. */
  lemma ByteChecksumSees(data: seq<Byte>, p: nat, b: Byte)
    requires p < |data|
    ensures ByteChecksum(data[p := b]) == ByteChecksum(data) + Weight(p, |data|) * (b - data[p])
  {
    var k := SampleCount(|data|);
    assert p < 4096 * k;
    SamplesUpdate(data, p, b, k);
  }

  /** Buffers of zeros sum to zero. */
  lemma {:induction false} ZeroSamples(data: seq<Byte>, k: nat)
    requires (k == 0 || 4096 * (k - 1) < |data|) && forall p: nat :: p < |data| ==> data[p] == 0
    ensures Samples(data, k) == 0
    ensures ByteChecksum([]) == 0 && (data != [] && k == SampleCount(|data|) ==> ByteChecksum(data) == 0)
  {
    if k > 0 {
      ZeroSamples(data, k - 1);
    }
  }

  /** The index values of the sampling loop all stay in the int range exactly up to MAX_SAMPLED. */
  lemma SamplingIndexFits(len: int)
    requires 0 < len <= INT_MAX
    ensures 4096 * SampleCount(len) <= INT_MAX <==> len <= MAX_SAMPLED
  {
  }

  method ChecksumBytes(data: array<Byte>, len: int) returns (sum: DWord)
    requires len <= data.Length && len <= MAX_SAMPLED
    ensures sum == if len <= 0 then 0 else ByteChecksum(data[..len])
  {
    sum := 0;
    if len <= 0 {
      return 0;
    }
    var i := 0;
    ghost var k := 0;
    while i < len
      invariant i == 4096 * k && k <= SampleCount(len)
      invariant sum == Samples(data[..len], k) && sum <= 0xff * k
      invariant i <= INT_MAX
    {
      sum := sum + data[i];
      i := i + 4096;
      k := k + 1;
    }
    sum := sum + data[len - 1];
  }

  // ---------------------------------------------------------------------------------------------
  // cdsp_peak_bench_mem_write

  /** The word stored by pass r, counting from zero. */
  function WriteWord(r: nat): Word {
    (0x5a5a5a5a + r * 0x01010101) % WORD32
  }

  /** The first n vectors filled with a word, the rest as before. */
  function Filled(before: seq<Byte>, n: nat, w: Word): (after: seq<Byte>)
    requires VECTOR_BYTES * n <= |before|
    ensures |after| == |before|
  {
    seq(|before|, p requires 0 <= p < |before| => if p < VECTOR_BYTES * n then ByteOf(w, p % 4) else before[p])
  }

  /** What a successful write leaves in the buffer: every whole vector holds the word of the last pass. */
  function Written(before: seq<Byte>, repeats: int): seq<Byte>
  {
    if repeats <= 0 then before else Filled(before, |before| / VECTOR_BYTES, WriteWord(repeats - 1))
  }

  function WriteOutcome(before: seq<Byte>, repeats: int, ticks: DWord): Outcome
    requires |before| <= MAX_SAMPLED
  {
    if repeats <= 0 || |before| < VECTOR_BYTES then Outcome(AEE_EBADPARM, 0, 0)
    else
      var after := Written(before, repeats);
      SamplesBound(after, SampleCount(|after|));
      Outcome(AEE_SUCCESS, ticks, ByteChecksum(after))
  }

  lemma WriteWordSteps(r: nat)
    ensures VAdd(Splat(WriteWord(r)), Splat(0x01010101)) == Splat(WriteWord(r + 1))
  {
    ModAddLeft(0x5a5a5a5a + r * 0x01010101, 0x01010101, WORD32);
  }

  method FillPass(dst: array<Byte>, n: nat, w: Word)
    requires VECTOR_BYTES * n <= dst.Length
    modifies dst
    ensures dst[..] == Filled(old(dst[..]), n, w)
  {
    var i := 0;
    while i < n
      invariant i <= n
      invariant forall p: nat :: p < VECTOR_BYTES * i ==> dst[p] == ByteOf(w, p % 4)
      invariant forall p: nat :: VECTOR_BYTES * i <= p < dst.Length ==> dst[p] == old(dst[p])
    {
      label Before:
      StoreVector(dst, i, Splat(w));
      forall p: nat | p < VECTOR_BYTES * (i + 1)
        ensures dst[p] == ByteOf(w, p % 4)
      {
        if p < VECTOR_BYTES * i {
          assert dst[p] == old@Before(dst[p]);
        } else {
          var j := p - VECTOR_BYTES * i;
          assert dst[VECTOR_BYTES * i + j] == StoredByte(Splat(w), j);
        }
      }
      i := i + 1;
    }
  }

  lemma RefillOverwrites(before: seq<Byte>, n: nat, v: Word, w: Word)
    requires VECTOR_BYTES * n <= |before|
    ensures Filled(Filled(before, n, v), n, w) == Filled(before, n, w)
  {
  }

  method BenchMemWrite(dst: array?<Byte>, dstLen: int, repeats: int, ticks: DWord) returns (out: Outcome)
    requires dst != null ==> dst.Length == dstLen <= MAX_SAMPLED
    modifies dst
    ensures dst == null ==> out == Outcome(AEE_EBADPARM, 0, 0)
    ensures dst != null ==> out == WriteOutcome(old(dst[..]), repeats, ticks)
    ensures dst != null ==> dst[..] == if out.err != 0 then old(dst[..]) else Written(old(dst[..]), repeats)
    ensures out.err == 0 <==> dst != null && dstLen >= 128 && repeats > 0
    ensures out.err == 0 ==> out.cycles == ticks && out.checksum == ByteChecksum(dst[..])
    ensures out.err == 0 ==> forall p: nat :: p < dst.Length ==>
      dst[p] == if p < dstLen / 128 * 128 then ByteOf((0x5a5a5a5a + (repeats - 1) * 0x01010101) % WORD32, p % 4)
                else old(dst[p])
    ensures out.err != 0 ==> out == Outcome(AEE_EBADPARM, 0, 0)
  {
    var nvec := Truncated(dstLen, VECTOR_BYTES);
    var value := Splat(0x5a5a5a5a);
    var step := Splat(0x01010101);
    if dst == null || dstLen <= 0 || repeats <= 0 || nvec <= 0 {
      return Outcome(AEE_EBADPARM, 0, 0);
    }
    ghost var before := dst[..];
    var r := 0;
    while r < repeats
      invariant 0 <= r <= repeats
      invariant value == Splat(WriteWord(r))
      invariant dst[..] == if r == 0 then before else Filled(before, nvec, WriteWord(r - 1))
    {
      FillPass(dst, nvec, value[0]);
      if r > 0 {
        RefillOverwrites(before, nvec, WriteWord(r - 1), WriteWord(r));
      }
      WriteWordSteps(r);
      value := VAdd(value, step);
      r := r + 1;
    }
    var checksum := ChecksumBytes(dst, dstLen);
    assert dst[..dstLen] == dst[..];
    return Outcome(AEE_SUCCESS, ticks, checksum);
  }

  lemma FilledSample(before: seq<Byte>, n: nat, w: Word, j: nat)
    requires VECTOR_BYTES * n == |before| && 4096 * j < |before|
    ensures Filled(before, n, w)[4096 * j] == w % 0x100
  {
    QuotientIs(4096 * j, 4, 1024 * j, 0);
  }

  lemma {:induction false} FilledSamples(before: seq<Byte>, n: nat, w: Word, k: nat)
    requires VECTOR_BYTES * n == |before| && (k == 0 || 4096 * (k - 1) < |before|)
    ensures Samples(Filled(before, n, w), k) == k * (w % 0x100)
  {
    if k == 0 {
    } else {
      FilledSamples(before, n, w, k - 1);
      FilledSample(before, n, w, k - 1);
      hide Filled, ByteOf;
      assert k * (w % 0x100) == (k - 1) * (w % 0x100) + w % 0x100;
    }
  }

  lemma FilledLast(before: seq<Byte>, n: nat, w: Word)
    requires VECTOR_BYTES * n == |before| > 0
    ensures Filled(before, n, w)[|before| - 1] == w / 0x100_0000
  {
    assert (|before| - 1) % 4 == 3;
  }

  lemma FilledChecksum(before: seq<Byte>, n: nat, w: Word)
    requires VECTOR_BYTES * n == |before| > 0
    ensures ByteChecksum(Filled(before, n, w)) == SampleCount(|before|) * (w % 0x100) + w / 0x100_0000
  {
    FilledSamples(before, n, w, SampleCount(|before|));
    FilledLast(before, n, w);
  }

  /**
   * The reported checksum of a write over whole vectors, whatever the buffer held before: the low
   * byte of the last pass's word once per 4096 bytes, and its high byte once.
   */
  lemma WriteChecksumClosedForm(before: seq<Byte>, repeats: int, ticks: DWord)
    requires |before| <= MAX_SAMPLED && |before| % VECTOR_BYTES == 0 && |before| > 0 && repeats > 0
    ensures WriteOutcome(before, repeats, ticks).err == AEE_SUCCESS
    ensures WriteOutcome(before, repeats, ticks).checksum
      == SampleCount(|before|) * (WriteWord(repeats - 1) % 0x100) + WriteWord(repeats - 1) / 0x100_0000
  {
    FilledChecksum(before, |before| / VECTOR_BYTES, WriteWord(repeats - 1));
  }

  // ---------------------------------------------------------------------------------------------
  // cdsp_peak_bench_mem_copy

  function CopyVectors(src: seq<Byte>, dst: seq<Byte>): nat {
    (if |src| < |dst| then |src| else |dst|) / VECTOR_BYTES
  }

  /** The destination after a copy: the whole vectors both buffers have, then its old bytes. */
  function Copied(src: seq<Byte>, dst: seq<Byte>): (after: seq<Byte>)
    ensures |after| == |dst|
  {
    src[..VECTOR_BYTES * CopyVectors(src, dst)] + dst[VECTOR_BYTES * CopyVectors(src, dst)..]
  }

  function CopyOutcome(src: seq<Byte>, dst: seq<Byte>, repeats: int, ticks: DWord): Outcome {
    var n := CopyVectors(src, dst);
    if repeats <= 0 || n == 0 then Outcome(AEE_EBADPARM, 0, 0)
    else Outcome(AEE_SUCCESS, ticks,
                 (VectorChecksum(StreamAccumulator(src, n, repeats)) + ByteChecksum(src[..VECTOR_BYTES * n])) % WORD64)
  }

  lemma RecopyOverwrites(src: seq<Byte>, dst: seq<Byte>)
    ensures Copied(src, Copied(src, dst)) == Copied(src, dst)
    ensures Copied(src, dst)[..VECTOR_BYTES * CopyVectors(src, dst)] == src[..VECTOR_BYTES * CopyVectors(src, dst)]
  {
  }

  /** All passes of a copy; dst ends with the whole vectors of src, and acc with their repeated sum. */
  method CopyPasses(src: array<Byte>, dst: array<Byte>, n: nat, repeats: nat) returns (acc: Vector)
    requires src != dst && n == CopyVectors(src[..], dst[..]) && repeats > 0
    modifies dst
    ensures dst[..] == Copied(src[..], old(dst[..]))
    ensures acc == StreamAccumulator(src[..], n, repeats)
  {
    acc := ZERO;
    ghost var s, before := src[..], dst[..];
    PassEnds(s, n, 0);
    RecopyOverwrites(s, before);
    var r := 0;
    while r < repeats
      invariant r <= repeats
      invariant acc == PassAccumulator(s, n, r, 0)
      invariant dst[..] == if r == 0 then before else Copied(s, before)
    {
      acc := CopyPass(src, dst, n, r, acc);
      PassEnds(s, n, r);
      r := r + 1;
    }
    PassEnds(s, n, repeats);
  }

  method BenchMemCopy(unit: VectorUnit, src: array?<Byte>, srcLen: int, dst: array?<Byte>, dstLen: int,
                      repeats: int, ticks: DWord) returns (out: Outcome)
    requires src != null && dst != null ==> src != dst
    requires src != null ==> src.Length == srcLen
    requires dst != null ==> dst.Length == dstLen
    requires src != null && dst != null ==> VECTOR_BYTES * CopyVectors(src[..], dst[..]) <= MAX_SAMPLED
    modifies unit`sink0, dst
    ensures src == null || dst == null ==> out == Outcome(AEE_EBADPARM, 0, 0)
    ensures src != null && dst != null ==> out == CopyOutcome(src[..], old(dst[..]), repeats, ticks)
    ensures src != null && dst != null && out.err == 0 ==> dst[..] == Copied(src[..], old(dst[..]))
    ensures out.err != 0 ==> unit.sink0 == old(unit.sink0) && (dst != null ==> dst[..] == old(dst[..]))
    ensures out.err == 0 ==> unit.sink0 == StreamAccumulator(src[..], CopyVectors(src[..], old(dst[..])), repeats)
    ensures out.err == 0 <==> src != null && dst != null && srcLen >= 128 && dstLen >= 128 && repeats > 0
    ensures out.err == 0 ==>
      var n := if srcLen < dstLen then srcLen / 128 * 128 else dstLen / 128 * 128;
      && out.cycles == ticks && out.checksum == (VectorChecksum(unit.sink0) + ByteChecksum(dst[..n])) % WORD64
      && forall p: nat :: p < dst.Length ==> dst[p] == if p < n then src[p] else old(dst[p])
    ensures out.err != 0 ==> out == Outcome(AEE_EBADPARM, 0, 0)
  {
    if src == null || dst == null || srcLen <= 0 || dstLen <= 0 || repeats <= 0 {
      return Outcome(AEE_EBADPARM, 0, 0);
    }
    var nvec := if srcLen < dstLen then srcLen else dstLen;
    nvec := Truncated(nvec, VECTOR_BYTES);
    if nvec <= 0 {
      return Outcome(AEE_EBADPARM, 0, 0);
    }
    RecopyOverwrites(src[..], dst[..]);
    var acc := CopyPasses(src, dst, nvec, repeats);
    unit.sink0 := acc;
    var first := ChecksumVector(acc);
    var second := ChecksumBytes(dst, VECTOR_BYTES * nvec);
    assert dst[..VECTOR_BYTES * nvec] == dst[..][..VECTOR_BYTES * nvec];
    return Outcome(AEE_SUCCESS, ticks, (first + second) % WORD64);
  }

  method CopyPass(src: array<Byte>, dst: array<Byte>, n: nat, ghost r: nat, start: Vector) returns (acc: Vector)
    requires src != dst && n == CopyVectors(src[..], dst[..])
    requires start == PassAccumulator(src[..], n, r, 0)
    modifies dst
    ensures dst[..] == Copied(src[..], old(dst[..]))
    ensures acc == PassAccumulator(src[..], n, r, n)
  {
    acc := start;
    ghost var s := src[..];
    var i := 0;
    while i < n
      invariant i <= n
      invariant acc == PassAccumulator(s, n, r, i)
      invariant forall p: nat :: p < VECTOR_BYTES * i ==> dst[p] == s[p]
      invariant forall p: nat :: VECTOR_BYTES * i <= p < dst.Length ==> dst[p] == old(dst[p])
    {
      label Before:
      var value := LoadVector(src[..], i);
      StoreVector(dst, i, value);
      forall p: nat | p < VECTOR_BYTES * (i + 1)
        ensures dst[p] == s[p]
      {
        if p < VECTOR_BYTES * i {
          assert dst[p] == old@Before(dst[p]);
        } else {
          var j := p - VECTOR_BYTES * i;
          StoreAfterLoad(s, i, j);
          assert dst[VECTOR_BYTES * i + j] == StoredByte(value, j);
        }
      }
      PassStep(s, n, r, i);
      acc := VAdd(acc, value);
      i := i + 1;
    }
  }

  /** Over equally long buffers of whole vectors a copy leaves exactly the source. */
  lemma CopyIsExact(src: seq<Byte>, dst: seq<Byte>)
    requires |src| == |dst| && |src| % VECTOR_BYTES == 0
    ensures Copied(src, dst) == src
  {
    assert VECTOR_BYTES * CopyVectors(src, dst) == |src|;
    assert src[..|src|] + dst[|src|..] == src;
  }
}
