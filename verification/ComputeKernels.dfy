/** The int8 kernels of the DSP, proved against one closed form, and the kernel switch. */
module ComputeKernels {
  import opened Words
  import opened Errors
  import opened Checksum
  import opened Vectors

  const KERNEL_FP32: int := 0
  const KERNEL_FP16: int := 1
  const KERNEL_INT8_FIXED: int := 2
  const KERNEL_INT8_ADD_FIXED: int := 3
  const KERNEL_QF16: int := 4
  const KERNEL_QF32: int := 5

  /** What a call hands back; the outputs stay zero when it fails, as the caller cleared them. */
  datatype Outcome = Outcome(err: int, cycles: DWord, checksum: DWord)

  /** The dot product of the fixed inputs of accumulator k: bytes 4k+1 .. 4k+4 against four bytes k+1. */
  function Int8Dot(k: nat): nat {
    (k + 1) * (16 * k + 10)
  }

  function Int8Lane(n: nat, k: nat): Word {
    n * Int8Dot(k) % WORD32
  }

  /** The accumulators of either int8 kernel after n iterations. */
  function Int8Accumulators(n: nat): Accumulators {
    [Splat(Int8Lane(n, 0)), Splat(Int8Lane(n, 1)), Splat(Int8Lane(n, 2)), Splat(Int8Lane(n, 3)),
     Splat(Int8Lane(n, 4)), Splat(Int8Lane(n, 5)), Splat(Int8Lane(n, 6)), Splat(Int8Lane(n, 7))]
  }

  /** Every lane of accumulator k counts the iterations, times the dot product of the bytes 4k+1 to 4k+4 with k+1. */
  lemma Int8Lanes(n: nat, k: nat, l: nat)
    requires k < 8 && l < LANES
    ensures Int8Accumulators(n)[k][l] == n * ((k + 1) * (4 * k + 1 + 4 * k + 2 + 4 * k + 3 + 4 * k + 4)) % WORD32
  {
    assert k == 0 || k == 1 || k == 2 || k == 3 || k == 4 || k == 5 || k == 6 || k == 7;
    assert (k + 1) * (4 * k + 1 + 4 * k + 2 + 4 * k + 3 + 4 * k + 4) == Int8Dot(k);
  }

  function Int8Checksum(n: nat): DWord {
    AccumulatorChecksum(Int8Accumulators(n))
  }

  /** The accumulators a kernel leaves; those of the floating-point kernels are not interpreted. */
  function KernelAccumulators(kernel: int, n: nat, float: Accumulators): Accumulators {
    if kernel == KERNEL_INT8_FIXED || kernel == KERNEL_INT8_ADD_FIXED then Int8Accumulators(n) else float
  }

  predicate KnownKernel(kernel: int) {
    KERNEL_FP32 <= kernel <= KERNEL_QF32
  }

  function ComputeOutcome(kernel: int, iterations: int, float: Accumulators, ticks: DWord): Outcome {
    if iterations <= 0 || !KnownKernel(kernel) then Outcome(AEE_EBADPARM, 0, 0)
    else Outcome(AEE_SUCCESS, ticks, AccumulatorChecksum(KernelAccumulators(kernel, iterations, float)))
  }

  lemma ScaledNone(a: Vector, b: Vector)
    ensures Scaled(0, a, b) == ZERO
  {
  }

  lemma ScaledSplat(n: nat, a: Word, b: Word)
    ensures Scaled(n, Splat(a), Splat(b)) == Splat(n * Dot(a, b) % WORD32)
  {
  }

  lemma DotOfBytes(a0: Byte, a1: Byte, a2: Byte, a3: Byte, b: Byte)
    requires b < 0x80
    ensures Dot(WordOf(a0, a1, a2, a3), WordOf(b, b, b, b)) == a0 * b + a1 * b + a2 * b + a3 * b
  {
    BytesOfWord(a0, a1, a2, a3);
    BytesOfWord(b, b, b, b);
  }

  /** The fixed operands of both kernels have the dot products of the closed form. */
  lemma FixedDots()
    ensures Dot(0x01020304, 0x01010101) == Int8Dot(0) && Dot(0x05060708, 0x02020202) == Int8Dot(1)
    ensures Dot(0x090a0b0c, 0x03030303) == Int8Dot(2) && Dot(0x0d0e0f10, 0x04040404) == Int8Dot(3)
    ensures Dot(0x11121314, 0x05050505) == Int8Dot(4) && Dot(0x15161718, 0x06060606) == Int8Dot(5)
    ensures Dot(0x191a1b1c, 0x07070707) == Int8Dot(6) && Dot(0x1d1e1f20, 0x08080808) == Int8Dot(7)
  {
    DotOfBytes(0x04, 0x03, 0x02, 0x01, 1);
    DotOfBytes(0x08, 0x07, 0x06, 0x05, 2);
    DotOfBytes(0x0c, 0x0b, 0x0a, 0x09, 3);
    DotOfBytes(0x10, 0x0f, 0x0e, 0x0d, 4);
    DotOfBytes(0x14, 0x13, 0x12, 0x11, 5);
    DotOfBytes(0x18, 0x17, 0x16, 0x15, 6);
    DotOfBytes(0x1c, 0x1b, 0x1a, 0x19, 7);
    DotOfBytes(0x20, 0x1f, 0x1e, 0x1d, 8);
  }

  /** The vector unit with the global sink the benchmarks write to. */
  class VectorUnit {
    var sink0: Vector

    constructor ()
      ensures sink0 == ZERO
    {
      sink0 := ZERO;
    }

    method ChecksumAccumulators(a0: Vector, a1: Vector, a2: Vector, a3: Vector,
                                a4: Vector, a5: Vector, a6: Vector, a7: Vector) returns (checksum: DWord)
      modifies this`sink0
      ensures sink0 == Total([a0, a1, a2, a3, a4, a5, a6, a7])
      ensures checksum == AccumulatorChecksum([a0, a1, a2, a3, a4, a5, a6, a7])
    {
      TreeIsTotal([a0, a1, a2, a3, a4, a5, a6, a7]);
      var sum0 := VAdd(a0, a1);
      var sum1 := VAdd(a2, a3);
      var sum2 := VAdd(a4, a5);
      var sum3 := VAdd(a6, a7);
      var sum4 := VAdd(sum0, sum1);
      var sum5 := VAdd(sum2, sum3);
      var sum := VAdd(sum4, sum5);
      sink0 := sum;
      checksum := ChecksumVector(sum);
      var part := ChecksumVector(a0);
      checksum := XorDWord(checksum, part);
      part := ChecksumVector(a3);
      checksum := XorDWord(checksum, part);
      part := ChecksumVector(a5);
      checksum := XorDWord(checksum, part);
      part := ChecksumVector(a7);
      checksum := XorDWord(checksum, part);
    }

    method RunInt8FixedKernel(iterations: int) returns (checksum: DWord)
      requires iterations > 0
      modifies this`sink0
      ensures sink0 == Total(Int8Accumulators(iterations))
      ensures checksum == Int8Checksum(iterations)
    {
      hide VRMpy, VRMpyAcc, VAdd, Scaled, Total, Int8Accumulators;
      var a0, a1, a2, a3 := Splat(0x01020304), Splat(0x05060708), Splat(0x090a0b0c), Splat(0x0d0e0f10);
      var a4, a5, a6, a7 := Splat(0x11121314), Splat(0x15161718), Splat(0x191a1b1c), Splat(0x1d1e1f20);
      var b0, b1, b2, b3 := Splat(0x01010101), Splat(0x02020202), Splat(0x03030303), Splat(0x04040404);
      var b4, b5, b6, b7 := Splat(0x05050505), Splat(0x06060606), Splat(0x07070707), Splat(0x08080808);
      var acc0, acc1, acc2, acc3 := ZERO, ZERO, ZERO, ZERO;
      var acc4, acc5, acc6, acc7 := ZERO, ZERO, ZERO, ZERO;
      ScaledNone(a0, b0);
      ScaledNone(a1, b1);
      ScaledNone(a2, b2);
      ScaledNone(a3, b3);
      ScaledNone(a4, b4);
      ScaledNone(a5, b5);
      ScaledNone(a6, b6);
      ScaledNone(a7, b7);
      var i := 0;
      while i < iterations
        invariant 0 <= i <= iterations
        invariant acc0 == Scaled(i, a0, b0) && acc1 == Scaled(i, a1, b1)
        invariant acc2 == Scaled(i, a2, b2) && acc3 == Scaled(i, a3, b3)
        invariant acc4 == Scaled(i, a4, b4) && acc5 == Scaled(i, a5, b5)
        invariant acc6 == Scaled(i, a6, b6) && acc7 == Scaled(i, a7, b7)
      {
        AccumulationForms(i, a0, b0);
        acc0 := VRMpyAcc(acc0, a0, b0);
        AccumulationForms(i, a1, b1);
        acc1 := VRMpyAcc(acc1, a1, b1);
        AccumulationForms(i, a2, b2);
        acc2 := VRMpyAcc(acc2, a2, b2);
        AccumulationForms(i, a3, b3);
        acc3 := VRMpyAcc(acc3, a3, b3);
        AccumulationForms(i, a4, b4);
        acc4 := VRMpyAcc(acc4, a4, b4);
        AccumulationForms(i, a5, b5);
        acc5 := VRMpyAcc(acc5, a5, b5);
        AccumulationForms(i, a6, b6);
        acc6 := VRMpyAcc(acc6, a6, b6);
        AccumulationForms(i, a7, b7);
        acc7 := VRMpyAcc(acc7, a7, b7);
        i := i + 1;
      }
      ScaledFixed(iterations);
      checksum := ChecksumAccumulators(acc0, acc1, acc2, acc3, acc4, acc5, acc6, acc7);
    }

    method RunInt8AddFixedKernel(iterations: int) returns (checksum: DWord)
      requires iterations > 0
      modifies this`sink0
      ensures sink0 == Total(Int8Accumulators(iterations))
      ensures checksum == Int8Checksum(iterations)
    {
      hide VRMpy, VRMpyAcc, VAdd, Scaled, Total, Int8Accumulators;
      var a0, a1, a2, a3 := Splat(0x01020304), Splat(0x05060708), Splat(0x090a0b0c), Splat(0x0d0e0f10);
      var a4, a5, a6, a7 := Splat(0x11121314), Splat(0x15161718), Splat(0x191a1b1c), Splat(0x1d1e1f20);
      var acc0, acc1, acc2, acc3 := ZERO, ZERO, ZERO, ZERO;
      var acc4, acc5, acc6, acc7 := ZERO, ZERO, ZERO, ZERO;
      var b0, b1, b2, b3 := Splat(0x01010101), Splat(0x02020202), Splat(0x03030303), Splat(0x04040404);
      var b4, b5, b6, b7 := Splat(0x05050505), Splat(0x06060606), Splat(0x07070707), Splat(0x08080808);
      ScaledNone(a0, b0);
      ScaledNone(a1, b1);
      ScaledNone(a2, b2);
      ScaledNone(a3, b3);
      ScaledNone(a4, b4);
      ScaledNone(a5, b5);
      ScaledNone(a6, b6);
      ScaledNone(a7, b7);
      var i := 0;
      while i < iterations
        invariant 0 <= i <= iterations
        invariant acc0 == Scaled(i, a0, b0) && acc1 == Scaled(i, a1, b1)
        invariant acc2 == Scaled(i, a2, b2) && acc3 == Scaled(i, a3, b3)
        invariant acc4 == Scaled(i, a4, b4) && acc5 == Scaled(i, a5, b5)
        invariant acc6 == Scaled(i, a6, b6) && acc7 == Scaled(i, a7, b7)
      {
        var prod0, prod1, prod2, prod3 := VRMpy(a0, b0), VRMpy(a1, b1), VRMpy(a2, b2), VRMpy(a3, b3);
        var prod4, prod5, prod6, prod7 := VRMpy(a4, b4), VRMpy(a5, b5), VRMpy(a6, b6), VRMpy(a7, b7);
        AccumulationForms(i, a0, b0);
        acc0 := VAdd(acc0, prod0);
        AccumulationForms(i, a1, b1);
        acc1 := VAdd(acc1, prod1);
        AccumulationForms(i, a2, b2);
        acc2 := VAdd(acc2, prod2);
        AccumulationForms(i, a3, b3);
        acc3 := VAdd(acc3, prod3);
        AccumulationForms(i, a4, b4);
        acc4 := VAdd(acc4, prod4);
        AccumulationForms(i, a5, b5);
        acc5 := VAdd(acc5, prod5);
        AccumulationForms(i, a6, b6);
        acc6 := VAdd(acc6, prod6);
        AccumulationForms(i, a7, b7);
        acc7 := VAdd(acc7, prod7);
        i := i + 1;
      }
      ScaledFixed(iterations);
      checksum := ChecksumAccumulators(acc0, acc1, acc2, acc3, acc4, acc5, acc6, acc7);
    }

    /**
     * The kernel switch. The floating-point kernels leave accumulators the model does not interpret,
     * and the cycle counter reading is an input.
     */
    method BenchCompute(kernel: int, iterations: int, float: Accumulators, ticks: DWord) returns (out: Outcome)
      modifies this`sink0
      ensures out == ComputeOutcome(kernel, iterations, float, ticks)
      ensures iterations <= 0 || kernel < 0 || kernel > 5 <==> out == Outcome(AEE_EBADPARM, 0, 0)
      ensures sink0 == if out.err != 0 then old(sink0) else Total(KernelAccumulators(kernel, iterations, float))
    {
      if iterations <= 0 {
        return Outcome(AEE_EBADPARM, 0, 0);
      }
      var checksum: DWord;
      if kernel == KERNEL_INT8_FIXED {
        checksum := RunInt8FixedKernel(iterations);
      } else if kernel == KERNEL_INT8_ADD_FIXED {
        checksum := RunInt8AddFixedKernel(iterations);
      } else if kernel == KERNEL_FP32 || kernel == KERNEL_FP16 || kernel == KERNEL_QF16 || kernel == KERNEL_QF32 {
        checksum := ChecksumAccumulators(float[0], float[1], float[2], float[3],
                                         float[4], float[5], float[6], float[7]);
        assert [float[0], float[1], float[2], float[3], float[4], float[5], float[6], float[7]] == float;
      } else {
        return Outcome(AEE_EBADPARM, 0, 0);
      }
      return Outcome(AEE_SUCCESS, ticks, checksum);
    }
  }

  lemma ScaledFixed(n: nat)
    ensures [Scaled(n, Splat(0x01020304), Splat(0x01010101)), Scaled(n, Splat(0x05060708), Splat(0x02020202)),
             Scaled(n, Splat(0x090a0b0c), Splat(0x03030303)), Scaled(n, Splat(0x0d0e0f10), Splat(0x04040404)),
             Scaled(n, Splat(0x11121314), Splat(0x05050505)), Scaled(n, Splat(0x15161718), Splat(0x06060606)),
             Scaled(n, Splat(0x191a1b1c), Splat(0x07070707)), Scaled(n, Splat(0x1d1e1f20), Splat(0x08080808))]
      == Int8Accumulators(n)
  {
    FixedDots();
    ScaledSplat(n, 0x01020304, 0x01010101);
    ScaledSplat(n, 0x05060708, 0x02020202);
    ScaledSplat(n, 0x090a0b0c, 0x03030303);
    ScaledSplat(n, 0x0d0e0f10, 0x04040404);
    ScaledSplat(n, 0x11121314, 0x05050505);
    ScaledSplat(n, 0x15161718, 0x06060606);
    ScaledSplat(n, 0x191a1b1c, 0x07070707);
    ScaledSplat(n, 0x1d1e1f20, 0x08080808);
  }
}
