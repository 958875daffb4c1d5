/** The result of one measurement round, and the options and rows of a run. */
module Results {
  import opened Words

  const MAX_THREADS: nat := 256

  datatype Measured = Failed(err: int) | Totals(count: DWord, cycles: DWord, checksum: DWord, elapsed: real)

  datatype Options = Options(threads: nat, minMs: int, iterations: int)

  /** What option parsing and thread resolution guarantee. */
  predicate ValidOptions(opt: Options) {
    1 <= opt.threads <= MAX_THREADS && 1 <= opt.minMs <= INT_MAX && 0 <= opt.iterations <= INT_MAX
  }

  datatype Row =
    | RpcRow(totals: Measured)
    | ComputeRow(index: nat, totals: Measured)
    | MemRow(kind: int, totals: Measured)

  predicate LongEnough(m: Measured, minMs: int) {
    m.Totals? && m.elapsed >= minMs as real
  }

  predicate TooShort(m: Measured, minMs: int) {
    m.Totals? && m.elapsed < minMs as real
  }

  /** The unsigned capability converted to int, as the compiler does it. */
  function AsInt(w: Word): int {
    if w < 0x8000_0000 then w else w - WORD32
  }

  /** The number of threads used: the request or the reported unit count, always between 1 and 256. */
  method ResolveThreadCount(threads: int, auto: bool, hvx64: Word, hvx128: Word) returns (resolved: nat)
    ensures 1 <= resolved <= MAX_THREADS
    ensures !auto ==> resolved == if threads <= 0 then 1 else if threads <= MAX_THREADS then threads else MAX_THREADS
    ensures auto ==> var units := if hvx128 != 0 then hvx128 else hvx64;
      resolved == if units == 0 || units >= 0x8000_0000 then 1 else if units <= MAX_THREADS then units else MAX_THREADS
  {
    var units := if hvx128 != 0 then hvx128 else hvx64;
    var t := threads;
    if auto {
      t := if units > 0 then AsInt(units) else 1;
    }
    if t <= 0 {
      t := 1;
    }
    if t > MAX_THREADS {
      t := MAX_THREADS;
    }
    resolved := t;
  }

  // ---------------------------------------------------------------------------------------------
  // Adaptive doubling

  /** start doubled k times. */
  ghost function Doubled(start: int, k: nat): int {
    if k == 0 then start else 2 * Doubled(start, k - 1)
  }

  lemma {:induction false} DoubledIsMultiple(start: int, k: nat)
    ensures Doubled(start, k) == start * Pow2(k)
  {
    if k > 0 {
      DoubledIsMultiple(start, k - 1);
    }
  }

  /** Every round before round k succeeded, was too short, and tried a value below the cap. */
  ghost predicate Escalated(at: nat -> Measured, k: nat, start: int, minMs: int, cap: int) {
    forall j: nat :: j < k ==> Escalates(at, j, start, minMs, cap)
  }

  ghost predicate Escalates(at: nat -> Measured, j: nat, start: int, minMs: int, cap: int) {
    TooShort(at(j), minMs) && Doubled(start, j) < cap
  }

  lemma EscalatedStep(at: nat -> Measured, k: nat, start: int, minMs: int, cap: int)
    requires Escalated(at, k, start, minMs, cap) && Escalates(at, k, start, minMs, cap)
    ensures Escalated(at, k + 1, start, minMs, cap)
    ensures Doubled(start, k + 1) == 2 * Doubled(start, k)
  {
  }

  /** From a positive start the cap bounds every value tried and the number of doublings. */
  lemma EscalationBounded(at: nat -> Measured, k: nat, start: int, minMs: int, cap: int)
    requires start > 0 && k > 0 && Escalated(at, k, start, minMs, cap)
    ensures Doubled(start, k) < 2 * cap
    ensures Pow2(k - 1) < cap
  {
    var j := k - 1;
    assert Escalates(at, j, start, minMs, cap);
    DoubledIsMultiple(start, j);
    MultipleExceeds(start, Pow2(j));
  }

  /** From 1 below the cap 2^n there are at most n doublings, and nothing above 2^n is tried. */
  lemma EscalationFromOne(at: nat -> Measured, k: nat, minMs: int, n: nat)
    requires Escalated(at, k, 1, minMs, Pow2(n))
    ensures k <= n && Doubled(1, k) <= Pow2(n)
  {
    DoubledIsMultiple(1, k);
    if k > n {
      PowMonotone(n, k - 1);
      EscalationBounded(at, k, 1, minMs, Pow2(n));
    } else {
      PowMonotone(k, n);
    }
  }
}
