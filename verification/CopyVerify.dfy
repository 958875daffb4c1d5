/** The sampling copy verifier: which positions it probes, and exactly what it can miss. */
module CopyVerify {
  import opened Words
  import opened StrideFactors

  const MAX_PROBES: nat := 4096

  function ProbeCount(bytes: nat): nat {
    if bytes < MAX_PROBES then bytes else MAX_PROBES
  }

  function Probe(i: nat, bytes: nat): (p: nat)
    requires bytes > 0
    ensures p < bytes
  {
    i * PROBE_STRIDE % bytes
  }

  function Probes(n: nat, bytes: nat): set<nat>
    requires bytes > 0
  {
    set i: nat | i < n :: Probe(i, bytes)
  }

  /** The positions the verifier compares. */
  function ProbeSet(bytes: nat): set<nat>
    requires bytes > 0
  {
    Probes(ProbeCount(bytes), bytes)
  }

  predicate Passes(src: seq<Byte>, dst: seq<Byte>)
    requires |src| == |dst|
  {
    |src| > 0 ==> forall p :: p in ProbeSet(|src|) ==> p < |src| && src[p] == dst[p]
  }

  /** Byte i of the probing order agrees. */
  predicate AgreeAt(src: seq<Byte>, dst: seq<Byte>, i: nat)
    requires |src| == |dst| > 0
  {
    var p := i * 2654435761 % |src|;
    src[p] == dst[p]
  }

  /** Probe by probe: up to 4096 of them, each a multiple of the stride modulo the length. */
  lemma PassesIff(src: seq<Byte>, dst: seq<Byte>)
    requires |src| == |dst| > 0
    ensures Passes(src, dst) <==> forall i: nat :: i < 4096 && i < |src| ==> AgreeAt(src, dst, i)
  {
    if Passes(src, dst) {
      forall i: nat | i < 4096 && i < |src|
        ensures AgreeAt(src, dst, i)
      {
        assert Probe(i, |src|) in ProbeSet(|src|);
      }
    }
    if forall i: nat :: i < 4096 && i < |src| ==> AgreeAt(src, dst, i) {
      forall p | p in ProbeSet(|src|)
        ensures src[p] == dst[p]
      {
        var i: nat :| i < ProbeCount(|src|) && Probe(i, |src|) == p;
        assert AgreeAt(src, dst, i);
      }
    }
  }

  /** The source's loop; the product stays below 2^64, so the 64-bit size type does not wrap. */
  method VerifyCopy(src: array<Byte>, dst: array<Byte>, bytes: nat) returns (r: int)
    requires bytes <= src.Length && bytes <= dst.Length
    ensures r == 0 || r == -1
    ensures r == 0 <==> Passes(src[..bytes], dst[..bytes])
    ensures bytes > 0 ==>
      (r == 0 <==> forall i: nat :: i < 4096 && i < bytes ==> AgreeAt(src[..bytes], dst[..bytes], i))
  {
    if bytes > 0 {
      PassesIff(src[..bytes], dst[..bytes]);
    }
    var probes := if bytes < MAX_PROBES then bytes else MAX_PROBES;
    var i := 0;
    while i < probes
      invariant i <= probes
      invariant bytes > 0 ==> forall p :: p in Probes(i, bytes) ==> src[p] == dst[p]
    {
      assert i * PROBE_STRIDE < WORD64;
      var idx := i * PROBE_STRIDE % bytes;
      assert Probe(i, bytes) == idx;
      if src[idx] != dst[idx] {
        assert idx in ProbeSet(bytes);
        assert src[..bytes][idx] != dst[..bytes][idx];
        return -1;
      }
      assert Probes(i + 1, bytes) == Probes(i, bytes) + {idx};
      i := i + 1;
    }
    return 0;
  }

  // ---------------------------------------------------------------------------------------------
  // When two probes meet

  function StrideGcd(bytes: nat): nat
    requires bytes > 0
  {
    ExtendedGcd(bytes, PROBE_STRIDE).g
  }

  lemma QuotientRange(a: nat, g: nat)
    requires a > 0 && g > 0 && a % g == 0
    ensures 0 < a / g <= a && a == a / g * g
  {
    if a / g > a {
      MultipleExceeds(a / g - a, g);
      MultipleExceeds(g, a);
    }
  }

  /** How many positions the stride visits before it repeats itself. */
  function Period(bytes: nat): (p: nat)
    requires bytes > 0
    ensures 0 < p <= bytes && bytes == p * StrideGcd(bytes)
  {
    QuotientRange(bytes, StrideGcd(bytes));
    bytes / StrideGcd(bytes)
  }

  lemma SameRemainder(a: int, b: int, m: int)
    requires m > 0
    ensures a % m == b % m <==> (a - b) % m == 0
  {
    if a % m == b % m {
      QuotientIs(a - b, m, a / m - b / m, 0);
    }
    if (a - b) % m == 0 {
      var k := (a - b) / m;
      assert a == b + k * m;
      ModShift(b, k, m);
    }
  }

  lemma StrideMultiple(bytes: nat, d: int)
    requires bytes > 0
    ensures d * PROBE_STRIDE % bytes == 0 <==> d % Period(bytes) == 0
  {
    var e := ExtendedGcd(bytes, PROBE_STRIDE);
    var p := Period(bytes);
    assert bytes == p * e.g;
    if d * PROBE_STRIDE % bytes == 0 {
      var t := d * PROBE_STRIDE / bytes;
      assert d * PROBE_STRIDE == t * bytes;
      StrideCombination(bytes, d, t, e.x, e.y, p, e.g);
      QuotientIs(d, p, d * e.x + t * e.y, 0);
    }
    if d % p == 0 {
      var t, k := d / p, PROBE_STRIDE / e.g;
      assert d == t * p && PROBE_STRIDE == k * e.g;
      MultipleOfProduct(d, t, p, k, e.g);
      QuotientIs(d * PROBE_STRIDE, bytes, t * k, 0);
    }
  }

  lemma MultipleOfProduct(d: int, t: int, p: int, k: int, g: int)
    requires d == t * p
    ensures d * (k * g) == t * k * (p * g)
  {
  }

  lemma StrideCombination(bytes: nat, d: int, t: int, x: int, y: int, p: int, g: nat)
    requires d * PROBE_STRIDE == t * bytes
    requires g > 0 && bytes == p * g && g == bytes * x + PROBE_STRIDE * y
    ensures d == (d * x + t * y) * p
  {
    calc {
      g * d;
      (bytes * x + PROBE_STRIDE * y) * d;
      bytes * x * d + PROBE_STRIDE * y * d;
      { assert PROBE_STRIDE * y * d == d * PROBE_STRIDE * y; }
      bytes * x * d + t * bytes * y;
      { assert t * bytes * y == bytes * (t * y); }
      bytes * (d * x + t * y);
      p * g * (d * x + t * y);
      g * ((d * x + t * y) * p);
    }
    CancelFactor(g, d, (d * x + t * y) * p);
  }

  /** Two probes hit the same position exactly when their numbers differ by a multiple of the period. */
  lemma ProbesMeet(bytes: nat, i: nat, j: nat)
    requires bytes > 0
    ensures Probe(i, bytes) == Probe(j, bytes) <==> (i - j) % Period(bytes) == 0
  {
    SameRemainder(i * PROBE_STRIDE, j * PROBE_STRIDE, bytes);
    assert i * PROBE_STRIDE - j * PROBE_STRIDE == (i - j) * PROBE_STRIDE;
    StrideMultiple(bytes, i - j);
  }

  // ---------------------------------------------------------------------------------------------
  // How many positions are probed

  function DistinctProbes(bytes: nat): nat
    requires bytes > 0
  {
    if Period(bytes) < MAX_PROBES then Period(bytes) else MAX_PROBES
  }

  lemma {:induction false} EarlyProbesDistinct(n: nat, bytes: nat)
    requires bytes > 0 && n <= Period(bytes)
    ensures |Probes(n, bytes)| == n
  {
    if n == 0 {
      assert Probes(0, bytes) == {};
    } else {
      EarlyProbesDistinct(n - 1, bytes);
      forall i: nat | i < n - 1
        ensures Probe(i, bytes) != Probe(n - 1, bytes)
      {
        ProbesMeet(bytes, n - 1, i);
        QuotientIs(n - 1 - i, Period(bytes), 0, n - 1 - i);
      }
      assert Probes(n, bytes) == Probes(n - 1, bytes) + {Probe(n - 1, bytes)};
    }
  }

  /** Every probe repeats one of the first period probes. */
  lemma LateProbesRepeat(i: nat, bytes: nat)
    requires bytes > 0
    ensures i % Period(bytes) < Period(bytes)
    ensures Probe(i % Period(bytes), bytes) == Probe(i, bytes)
  {
    var p := Period(bytes);
    QuotientIs(i % p, p, 0, i % p);
    SameRemainder(i, i % p, p);
    ProbesMeet(bytes, i, i % p);
  }

  /** The verifier compares exactly min(4096, period) different positions. */
  lemma ProbeSetSize(bytes: nat)
    requires bytes > 0
    ensures |ProbeSet(bytes)| == DistinctProbes(bytes)
    ensures forall p :: p in ProbeSet(bytes) ==> p < bytes
  {
    var n := DistinctProbes(bytes);
    EarlyProbesDistinct(n, bytes);
    forall i: nat | i < ProbeCount(bytes)
      ensures Probe(i, bytes) in Probes(n, bytes)
    {
      if i >= n {
        LateProbesRepeat(i, bytes);
      }
    }
    assert ProbeSet(bytes) == Probes(n, bytes);
  }

  // ---------------------------------------------------------------------------------------------
  // What the verifier catches

  ghost function Positions(bytes: nat): (s: set<nat>)
    ensures |s| == bytes
    ensures forall p: nat :: p in s <==> p < bytes
  {
    if bytes == 0 then {} else Positions(bytes - 1) + {bytes - 1}
  }

  ghost function Mismatches(src: seq<Byte>, dst: seq<Byte>): set<nat>
    requires |src| == |dst|
  {
    set p: nat | p < |src| && src[p] != dst[p]
  }

  lemma SubsetSize<T>(a: set<T>, b: set<T>)
    requires a <= b
    ensures |a| <= |b|
  {
    assert b == a + (b - a);
  }

  /** The verifier never rejects an exact copy. */
  lemma EqualBuffersPass(src: seq<Byte>, dst: seq<Byte>)
    requires src == dst
    ensures Passes(src, dst)
  {
    if |src| > 0 {
      ProbeSetSize(|src|);
    }
  }

  /** Pigeonhole: more mismatches than unprobed positions cannot pass. */
  lemma ManyMismatchesRejected(src: seq<Byte>, dst: seq<Byte>)
    requires |src| == |dst| > 0
    requires |Mismatches(src, dst)| > |src| - DistinctProbes(|src|)
    ensures !Passes(src, dst)
  {
    if Passes(src, dst) {
      var bytes := |src|;
      ProbeSetSize(bytes);
      SubsetSize(Mismatches(src, dst), Positions(bytes) - ProbeSet(bytes));
    }
  }

  lemma {:induction false} SubsetOfSize(s: set<nat>, k: nat) returns (t: set<nat>)
    requires k <= |s|
    ensures t <= s && |t| == k
    decreases |s| - k
  {
    if k == |s| {
      t := s;
    } else {
      var r := SubsetOfSize(s, k + 1);
      var x :| x in r;
      t := r - {x};
    }
  }

  /** Buffers that differ exactly on a chosen set of positions. */
  lemma BuffersDifferingOn(bytes: nat, bad: set<nat>) returns (src: seq<Byte>, dst: seq<Byte>)
    requires bad <= Positions(bytes)
    ensures |src| == |dst| == bytes && Mismatches(src, dst) == bad
  {
    src := seq(bytes, _ => 0);
    dst := seq(bytes, p => if p in bad then 1 else 0);
  }

  /**
   * The bound is tight: a copy with k wrong bytes can pass exactly when k of the positions are
   * left unprobed.
   */
  lemma UndetectedIff(bytes: nat, k: nat)
    requires bytes > 0
    ensures (exists src: seq<Byte>, dst: seq<Byte> ::
              |src| == |dst| == bytes && |Mismatches(src, dst)| == k && Passes(src, dst))
      <==> k <= bytes - DistinctProbes(bytes)
  {
    if k <= bytes - DistinctProbes(bytes) {
      ProbeSetSize(bytes);
      var free := Positions(bytes) - ProbeSet(bytes);
      var bad := SubsetOfSize(free, k);
      var src, dst := BuffersDifferingOn(bytes, bad);
      forall p | p in ProbeSet(bytes)
        ensures src[p] == dst[p]
      {
        assert p !in Mismatches(src, dst);
      }
      assert Passes(src, dst);
    } else {
      forall src: seq<Byte>, dst: seq<Byte> | |src| == |dst| == bytes && |Mismatches(src, dst)| == k
        ensures !Passes(src, dst)
      {
        ManyMismatchesRejected(src, dst);
      }
    }
  }

  /** Lengths prime to the stride: no probe is wasted. */
  lemma CoprimeProbes(bytes: nat)
    requires bytes > 0 && StrideGcd(bytes) == 1
    ensures DistinctProbes(bytes) == ProbeCount(bytes)
  {
  }

  lemma DivisorBelow(g: nat, bytes: nat)
    requires g > 0 && bytes > 0 && bytes % g == 0
    ensures g <= bytes
  {
    MultipleExceeds(bytes / g, g);
  }

  lemma ShortLengthsCoprime(bytes: nat)
    requires 0 < bytes <= MAX_PROBES
    ensures StrideGcd(bytes) == 1
  {
    var g := StrideGcd(bytes);
    DivisorBelow(g, bytes);
    if g >= 2 {
      NoSmallDivisor(g);
    }
  }

  /** The verifier decides equality of all buffers of a length exactly for lengths up to 4096. */
  lemma DecidesEqualityIff(bytes: nat)
    requires bytes > 0
    ensures (forall src: seq<Byte>, dst: seq<Byte> ::
              |src| == |dst| == bytes ==> (Passes(src, dst) <==> src == dst))
      <==> bytes <= MAX_PROBES
  {
    if bytes <= MAX_PROBES {
      ShortLengthsCoprime(bytes);
      CoprimeProbes(bytes);
      forall src: seq<Byte>, dst: seq<Byte> | |src| == |dst| == bytes
        ensures Passes(src, dst) <==> src == dst
      {
        FullProbesDecide(src, dst);
      }
    } else {
      ProbeSetSize(bytes);
      UndetectedIff(bytes, 1);
      var src: seq<Byte>, dst: seq<Byte> :|
        |src| == |dst| == bytes && |Mismatches(src, dst)| == 1 && Passes(src, dst);
      assert Mismatches(src, dst) != {};
      assert src != dst;
    }
  }

  lemma FullProbesDecide(src: seq<Byte>, dst: seq<Byte>)
    requires |src| == |dst| > 0 && DistinctProbes(|src|) == |src|
    ensures Passes(src, dst) <==> src == dst
  {
    EqualBuffersPass(src, src);
    if src != dst {
      var p: nat :| p < |src| && src[p] != dst[p];
      assert p in Mismatches(src, dst);
      assert |Mismatches(src, dst)| > 0;
      ManyMismatchesRejected(src, dst);
    }
  }

  /**
   * Every size the host sends is a multiple of 2^20; for multiples of 4096 the odd stride never
   * repeats within 4096 probes.
   */
  lemma HostSizesProbeFully(bytes: nat)
    requires bytes > 0 && bytes % 4096 == 0
    ensures DistinctProbes(bytes) == MAX_PROBES
  {
    var p: nat := Period(bytes);
    QuotientIs(p, p, 1, 0);
    StrideMultiple(bytes, p);
    StrideTimes(p, bytes);
    OddFactorCancels(p, p * PROBE_STRIDE / bytes * (bytes / 4096));
  }

  lemma StrideTimes(p: nat, bytes: nat)
    requires bytes > 0 && bytes % 4096 == 0 && p * PROBE_STRIDE % bytes == 0
    ensures p * PROBE_STRIDE == p * PROBE_STRIDE / bytes * (bytes / 4096) * 4096
  {
    var k, m := p * PROBE_STRIDE / bytes, bytes / 4096;
    assert p * PROBE_STRIDE == k * bytes && bytes == m * 4096;
    assert k * (m * 4096) == k * m * 4096;
  }

  lemma OddFactorCancels(p: nat, k: int)
    requires p > 0 && p * PROBE_STRIDE == k * 4096
    ensures p >= 4096
  {
    assert PROBE_STRIDE * 3921 == 2541026030 * 4096 + 1;
    assert p == (k * 3921 - p * 2541026030) * 4096;
  }
}
