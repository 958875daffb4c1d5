/** The 128-byte HVX vector as 32 wrapping words, and the lane arithmetic the kernels use. */
module Vectors {
  import opened Words
  import opened Checksum

  const LANES: nat := 32
  const VECTOR_BYTES: nat := 128

  type Vector = v: seq<Word> | |v| == LANES witness seq(LANES, _ => 0)

  function Splat(w: Word): Vector {
    seq(LANES, _ => w)
  }

  function VAdd(a: Vector, b: Vector): Vector {
    seq(LANES, l requires 0 <= l < LANES => (a[l] + b[l]) % WORD32)
  }

  /** Byte k of a word, least significant first. */
  function ByteOf(w: Word, k: nat): Byte
    requires k < 4
  {
    if k == 0 then w % 0x100
    else if k == 1 then w / 0x100 % 0x100
    else if k == 2 then w / 0x1_0000 % 0x100
    else w / 0x100_0000
  }

  function WordOf(b0: Byte, b1: Byte, b2: Byte, b3: Byte): Word {
    b0 + 0x100 * b1 + 0x1_0000 * b2 + 0x100_0000 * b3
  }

  function LoadWord(s: seq<Byte>, at: nat): Word
    requires at + 4 <= |s|
  {
    WordOf(s[at], s[at + 1], s[at + 2], s[at + 3])
  }

  /** Reading back the bytes of a stored word. */
  lemma BytesOfWord(b0: Byte, b1: Byte, b2: Byte, b3: Byte)
    ensures var w := WordOf(b0, b1, b2, b3);
      ByteOf(w, 0) == b0 && ByteOf(w, 1) == b1 && ByteOf(w, 2) == b2 && ByteOf(w, 3) == b3
  {
    var w := WordOf(b0, b1, b2, b3);
    QuotientIs(w, 0x100, b1 + 0x100 * b2 + 0x1_0000 * b3, b0);
    QuotientIs(w, 0x1_0000, b2 + 0x100 * b3, b0 + 0x100 * b1);
    QuotientIs(w, 0x100_0000, b3, b0 + 0x100 * b1 + 0x1_0000 * b2);
  }

  /** And putting the bytes of a word together again. */
  lemma BytesMakeWord(w: Word)
    ensures WordOf(ByteOf(w, 0), ByteOf(w, 1), ByteOf(w, 2), ByteOf(w, 3)) == w
  {
    hide ByteOf;
    var h := w / 0x100;
    var b0, b1, b2, b3 := w % 0x100, h % 0x100, h / 0x100 % 0x100, h / 0x100 / 0x100;
    BytesOfWord(b0, b1, b2, b3);
  }

  function Signed(b: Byte): int {
    if b < 0x80 then b else b - 0x100
  }

  /** The four products of unsigned bytes of a with signed bytes of b. */
  function Dot(a: Word, b: Word): int {
    ByteOf(a, 0) * Signed(ByteOf(b, 0)) + ByteOf(a, 1) * Signed(ByteOf(b, 1))
    + ByteOf(a, 2) * Signed(ByteOf(b, 2)) + ByteOf(a, 3) * Signed(ByteOf(b, 3))
  }

  function VRMpy(a: Vector, b: Vector): Vector {
    seq(LANES, l requires 0 <= l < LANES => Dot(a[l], b[l]) % WORD32)
  }

  function VRMpyAcc(acc: Vector, a: Vector, b: Vector): Vector {
    seq(LANES, l requires 0 <= l < LANES => (acc[l] + Dot(a[l], b[l])) % WORD32)
  }

  /** Every lane holds n times its dot product, modulo 2^32. */
  function Scaled(n: nat, a: Vector, b: Vector): Vector {
    seq(LANES, l requires 0 <= l < LANES => n * Dot(a[l], b[l]) % WORD32)
  }

  lemma LaneStep(n: nat, d: int)
    ensures (n * d % WORD32 + d) % WORD32 == (n + 1) * d % WORD32
    ensures (n * d % WORD32 + d % WORD32) % WORD32 == (n + 1) * d % WORD32
  {
    ModAddLeft(n * d, d, WORD32);
    ModAddLeft(d, n * d % WORD32, WORD32);
    assert n * d + d == (n + 1) * d;
  }

  /** One fused multiply-accumulate, and one multiply followed by an add, both advance the multiple by one. */
  lemma AccumulationForms(n: nat, a: Vector, b: Vector)
    ensures VRMpyAcc(Scaled(n, a, b), a, b) == Scaled(n + 1, a, b)
    ensures VAdd(Scaled(n, a, b), VRMpy(a, b)) == Scaled(n + 1, a, b)
  {
    forall l: nat | l < LANES
      ensures VRMpyAcc(Scaled(n, a, b), a, b)[l] == Scaled(n + 1, a, b)[l]
      ensures VAdd(Scaled(n, a, b), VRMpy(a, b))[l] == Scaled(n + 1, a, b)[l]
    {
      LaneStep(n, Dot(a[l], b[l]));
    }
  }

  /** n fused multiply-accumulates. */
  function Fused(n: nat, acc: Vector, a: Vector, b: Vector): Vector {
    if n == 0 then acc else VRMpyAcc(Fused(n - 1, acc, a, b), a, b)
  }

  /** n multiplies, each followed by an add. */
  function Split(n: nat, acc: Vector, a: Vector, b: Vector): Vector {
    if n == 0 then acc else VAdd(Split(n - 1, acc, a, b), VRMpy(a, b))
  }

  lemma OneLaneAgrees(c: int, d: int)
    ensures (c + d) % WORD32 == (c + d % WORD32) % WORD32
  {
    ModAddLeft(d, c, WORD32);
    assert d % WORD32 + c == c + d % WORD32 && d + c == c + d;
  }

  lemma OneStepAgrees(acc: Vector, a: Vector, b: Vector)
    ensures VRMpyAcc(acc, a, b) == VAdd(acc, VRMpy(a, b))
  {
    var product := VRMpy(a, b);
    forall l: nat | l < LANES
      ensures VRMpyAcc(acc, a, b)[l] == (acc[l] + product[l]) % WORD32
    {
      var d := Dot(a[l], b[l]);
      assert product[l] == d % WORD32;
      OneLaneAgrees(acc[l], d);
    }
  }

  /** The two accumulation forms are equivalent: any operands, any start, any number of iterations. */
  lemma {:induction false} FormsAgree(n: nat, acc: Vector, a: Vector, b: Vector)
    ensures Fused(n, acc, a, b) == Split(n, acc, a, b)
  {
    if n > 0 {
      FormsAgree(n - 1, acc, a, b);
      OneStepAgrees(Fused(n - 1, acc, a, b), a, b);
    }
  }

  // ---------------------------------------------------------------------------------------------
  // checksum_vector

  function WordElement(w: Word, i: nat): DWord
    requires i < LANES
  {
    w + i * WORD32
  }

  /** The word in the low half, its lane in the high one. */
  lemma WordElementParts(w: Word, i: nat)
    requires i < LANES
    ensures WordElement(w, i) % WORD32 == w && WordElement(w, i) / WORD32 == i
  {
    QuotientIs(WordElement(w, i), WORD32, i, w);
  }

  function WordElements(v: Vector): (es: seq<DWord>)
    ensures |es| == LANES
  {
    seq(LANES, i requires 0 <= i < LANES => WordElement(v[i], i))
  }

  function VectorChecksum(v: Vector): DWord {
    Fold(FNV_OFFSET, WordElements(v))
  }

  method ChecksumVector(value: Vector) returns (sum: DWord)
    ensures sum == VectorChecksum(value)
  {
    sum := FNV_OFFSET;
    ghost var es := WordElements(value);
    var i := 0;
    while i < LANES
      invariant i <= LANES
      invariant sum == Fold(FNV_OFFSET, es[..i])
    {
      assert es[..i + 1][..i] == es[..i];
      sum := XorDWord(sum, WordElement(value[i], i));
      sum := sum * FNV_PRIME % WORD64;
      i := i + 1;
    }
    assert es[..LANES] == es;
  }

  /** Two vectors that differ at most in word k have equal checksums iff they are equal. */
  lemma VectorSingleWordDetected(v: Vector, w: Vector, k: nat)
    requires k < LANES && AgreeOutside(v, w, k, k + 1)
    ensures VectorChecksum(v) == VectorChecksum(w) <==> v == w
  {
    SingleElementDetected(FNV_OFFSET, WordElements(v), WordElements(w), k);
    if v[k] == w[k] {
      assert v == w;
    }
  }

  // ---------------------------------------------------------------------------------------------
  // checksum_accumulators

  const ZERO: Vector := Splat(0)
  const ZEROS: seq<Vector> := [ZERO, ZERO, ZERO, ZERO, ZERO, ZERO, ZERO, ZERO]

  type Accumulators = a: seq<Vector> | |a| == 8 witness ZEROS

  function Lane(v: Vector, l: nat): nat
    requires l < LANES
  {
    v[l]
  }

  function LaneSum(accs: Accumulators, l: nat): nat
    requires l < LANES
  {
    Lane(accs[0], l) + Lane(accs[1], l) + Lane(accs[2], l) + Lane(accs[3], l)
    + Lane(accs[4], l) + Lane(accs[5], l) + Lane(accs[6], l) + Lane(accs[7], l)
  }

  /** The wrapping sum of all eight accumulators. */
  function Total(accs: Accumulators): Vector {
    seq(LANES, l requires 0 <= l < LANES => LaneSum(accs, l) % WORD32)
  }

  lemma TreeLane(x0: nat, x1: nat, x2: nat, x3: nat, x4: nat, x5: nat, x6: nat, x7: nat)
    ensures (((x0 + x1) % WORD32 + (x2 + x3) % WORD32) % WORD32
             + ((x4 + x5) % WORD32 + (x6 + x7) % WORD32) % WORD32) % WORD32
      == (x0 + x1 + x2 + x3 + x4 + x5 + x6 + x7) % WORD32
  {
    ModAddBoth(x0 + x1, x2 + x3);
    ModAddBoth(x4 + x5, x6 + x7);
    ModAddBoth(x0 + x1 + x2 + x3, x4 + x5 + x6 + x7);
  }

  lemma ModAddBoth(x: nat, y: nat)
    ensures (x % WORD32 + y % WORD32) % WORD32 == (x + y) % WORD32
  {
    ModAddLeft(x, y % WORD32, WORD32);
    ModAddLeft(y, x, WORD32);
  }

  /** The tree of pairwise adds of checksum_accumulators computes the total. */
  lemma TreeIsTotal(a: Accumulators)
    ensures VAdd(VAdd(VAdd(a[0], a[1]), VAdd(a[2], a[3])), VAdd(VAdd(a[4], a[5]), VAdd(a[6], a[7]))) == Total(a)
  {
    var tree := VAdd(VAdd(VAdd(a[0], a[1]), VAdd(a[2], a[3])), VAdd(VAdd(a[4], a[5]), VAdd(a[6], a[7])));
    forall l: nat | l < LANES
      ensures tree[l] == Total(a)[l]
    {
      TreeLane(a[0][l], a[1][l], a[2][l], a[3][l], a[4][l], a[5][l], a[6][l], a[7][l]);
    }
  }

  function AccumulatorChecksum(a: Accumulators): DWord {
    XorDWord(XorDWord(XorDWord(XorDWord(VectorChecksum(Total(a)), VectorChecksum(a[0])), VectorChecksum(a[3])),
                      VectorChecksum(a[5])), VectorChecksum(a[7]))
  }

  /** A change confined to one word of one unsampled accumulator is always detected. */
  lemma UnsampledWordDetected(a: Accumulators, j: nat, x: Vector, k: nat)
    requires j == 1 || j == 2 || j == 4 || j == 6
    requires k < LANES && AgreeOutside(a[j], x, k, k + 1)
    ensures AccumulatorChecksum(a[j := x]) == AccumulatorChecksum(a) <==> x == a[j]
  {
    var b: Accumulators := a[j := x];
    TotalLaneChanges(a, j, x, k);
    VectorSingleWordDetected(Total(a), Total(b), k);
    var p, q := VectorChecksum(Total(a)), VectorChecksum(Total(b));
    XorChainInjective(p, q, VectorChecksum(a[0]), VectorChecksum(a[3]), VectorChecksum(a[5]), VectorChecksum(a[7]));
    if x == a[j] {
      assert b == a;
    }
  }

  lemma LaneSumUpdate(a: Accumulators, j: nat, x: Vector, l: nat)
    requires j < 8 && l < LANES
    ensures LaneSum(a[j := x], l) == LaneSum(a, l) - Lane(a[j], l) + Lane(x, l)
  {
  }

  lemma TotalLaneChanges(a: Accumulators, j: nat, x: Vector, k: nat)
    requires j < 8 && k < LANES && AgreeOutside(a[j], x, k, k + 1)
    ensures AgreeOutside(Total(a), Total(a[j := x]), k, k + 1)
    ensures Total(a)[k] == Total(a[j := x])[k] <==> x == a[j]
  {
    forall l: nat | l < LANES
      ensures LaneSum(a[j := x], l) == LaneSum(a, l) - Lane(a[j], l) + Lane(x, l)
    {
      LaneSumUpdate(a, j, x, l);
    }
    WrappedSumInjective(LaneSum(a, k) - Lane(a[j], k), a[j][k], x[k]);
    if x[k] == a[j][k] {
      assert x == a[j];
    }
  }

  lemma WrappedSumInjective(rest: int, v: Word, w: Word)
    ensures (rest + v) % WORD32 == (rest + w) % WORD32 <==> v == w
  {
    ModAddLeft(rest + v, -rest, WORD32);
    ModAddLeft(rest + w, -rest, WORD32);
  }

  lemma XorInjective(p: DWord, q: DWord, r: DWord)
    ensures XorDWord(p, r) == XorDWord(q, r) <==> p == q
  {
    XorCancel(p, r);
    XorCancel(q, r);
  }

  lemma XorChainInjective(p: DWord, q: DWord, r: DWord, s: DWord, t: DWord, u: DWord)
    ensures (XorDWord(XorDWord(XorDWord(XorDWord(p, r), s), t), u)
             == XorDWord(XorDWord(XorDWord(XorDWord(q, r), s), t), u)) <==> p == q
  {
    XorInjective(p, q, r);
    XorInjective(XorDWord(p, r), XorDWord(q, r), s);
    XorInjective(XorDWord(XorDWord(p, r), s), XorDWord(XorDWord(q, r), s), t);
    XorInjective(XorDWord(XorDWord(XorDWord(p, r), s), t), XorDWord(XorDWord(XorDWord(q, r), s), t), u);
  }
}
