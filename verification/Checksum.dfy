/** The FNV-style checksum folds of the DSP and of the host, and what they detect. */
module Checksum {
  import opened Words

  const FNV_OFFSET: DWord := 0xcbf29ce484222325
  const FNV_PRIME: DWord := 0x100000001b3
  const FNV_INVERSE: DWord := 0xce965057aff6957b
  const GOLDEN: DWord := 0x9e3779b97f4a7c15

  function XorDWord(a: DWord, b: DWord): DWord {
    XorFits(a, b);
    Xor(a, b)
  }

  /** One fold step: mix the element in, then multiply with 64-bit wrap-around. */
  function Step(sum: DWord, element: DWord): DWord {
    XorDWord(sum, element) * FNV_PRIME % WORD64
  }

  function Unstep(sum: DWord, element: DWord): DWord {
    XorDWord(sum * FNV_INVERSE % WORD64, element)
  }

  lemma PrimeInvertible(x: DWord)
    ensures x * FNV_PRIME % WORD64 * FNV_INVERSE % WORD64 == x
    ensures x * FNV_INVERSE % WORD64 * FNV_PRIME % WORD64 == x
  {
    ModMulLeft(x * FNV_PRIME, FNV_INVERSE, WORD64);
    ModMulLeft(x * FNV_INVERSE, FNV_PRIME, WORD64);
    var k := FNV_PRIME * FNV_INVERSE / WORD64;
    assert FNV_PRIME * FNV_INVERSE == k * WORD64 + 1;
    assert x * FNV_PRIME * FNV_INVERSE == x + x * k * WORD64;
    assert x * FNV_INVERSE * FNV_PRIME == x + x * k * WORD64;
    ModShift(x, x * k, WORD64);
  }

  /** Each step is a bijection of the 64-bit state. */
  lemma StepBijective(sum: DWord, element: DWord)
    ensures Unstep(Step(sum, element), element) == sum
    ensures Step(Unstep(sum, element), element) == sum
  {
    XorFits(sum, element);
    PrimeInvertible(Xor(sum, element));
    XorCancel(sum, element);
    PrimeInvertible(sum);
    XorCancel(sum * FNV_INVERSE % WORD64, element);
  }

  lemma StepInjectiveInElement(sum: DWord, e: DWord, f: DWord)
    requires Step(sum, e) == Step(sum, f)
    ensures e == f
  {
    XorFits(sum, e);
    XorFits(sum, f);
    PrimeInvertible(Xor(sum, e));
    PrimeInvertible(Xor(sum, f));
    XorCommutes(sum, e);
    XorCommutes(sum, f);
    XorCancel(e, sum);
    XorCancel(f, sum);
  }

  function Fold(sum: DWord, elements: seq<DWord>): DWord
    decreases |elements|
  {
    if elements == [] then sum
    else Step(Fold(sum, elements[..|elements| - 1]), elements[|elements| - 1])
  }

  function Unfold(sum: DWord, elements: seq<DWord>): DWord
    decreases |elements|
  {
    if elements == [] then sum
    else Unfold(Unstep(sum, elements[|elements| - 1]), elements[..|elements| - 1])
  }

  /** For fixed data the whole fold is a bijection of the 64-bit state, with Unfold its inverse. */
  lemma {:induction false} FoldBijective(sum: DWord, elements: seq<DWord>)
    ensures Unfold(Fold(sum, elements), elements) == sum
    ensures Fold(Unfold(sum, elements), elements) == sum
    decreases |elements|
  {
    if elements == [] {
    } else {
      var init, last := elements[..|elements| - 1], elements[|elements| - 1];
      StepBijective(Fold(sum, init), last);
      FoldBijective(sum, init);
      StepBijective(sum, last);
      FoldBijective(Unstep(sum, last), init);
    }
  }

  lemma {:induction false} FoldConcat(sum: DWord, xs: seq<DWord>, ys: seq<DWord>)
    ensures Fold(sum, xs + ys) == Fold(Fold(sum, xs), ys)
  {
    if ys == [] {
      assert xs + ys == xs;
    } else {
      var init := ys[..|ys| - 1];
      assert (xs + ys)[..|xs + ys| - 1] == xs + init;
      FoldConcat(sum, xs, init);
    }
  }

  /** A common suffix hides nothing: the folds agree iff they agreed before it. */
  lemma FoldSuffix(s: DWord, t: DWord, suffix: seq<DWord>)
    ensures Fold(s, suffix) == Fold(t, suffix) <==> s == t
  {
    FoldBijective(s, suffix);
    FoldBijective(t, suffix);
  }

  ghost predicate AgreeOutside<T>(xs: seq<T>, ys: seq<T>, from: nat, to: nat)
  {
    && |xs| == |ys|
    && from <= to <= |xs|
    && forall i :: 0 <= i < |xs| && !(from <= i < to) ==> xs[i] == ys[i]
  }

  /** Sequences agreeing outside a window have equal folds iff the window folds agree. */
  lemma FoldWindow(sum: DWord, xs: seq<DWord>, ys: seq<DWord>, from: nat, to: nat)
    requires AgreeOutside(xs, ys, from, to)
    ensures Fold(sum, xs) == Fold(sum, ys)
      <==> Fold(Fold(sum, xs[..from]), xs[from..to]) == Fold(Fold(sum, xs[..from]), ys[from..to])
  {
    var prefix, suffix := xs[..from], xs[to..];
    assert ys[..from] == prefix;
    assert ys[to..] == suffix;
    assert xs == prefix + (xs[from..to] + suffix);
    assert ys == prefix + (ys[from..to] + suffix);
    FoldConcat(sum, prefix, xs[from..to] + suffix);
    FoldConcat(sum, prefix, ys[from..to] + suffix);
    var s := Fold(sum, prefix);
    FoldConcat(s, xs[from..to], suffix);
    FoldConcat(s, ys[from..to], suffix);
    FoldSuffix(Fold(s, xs[from..to]), Fold(s, ys[from..to]), suffix);
  }

  /** A change confined to one element of a sequence of any length always changes the fold. */
  lemma SingleElementDetected(sum: DWord, xs: seq<DWord>, ys: seq<DWord>, k: nat)
    requires k < |xs| && AgreeOutside(xs, ys, k, k + 1)
    ensures Fold(sum, xs) == Fold(sum, ys) <==> xs[k] == ys[k]
  {
    FoldWindow(sum, xs, ys, k, k + 1);
    assert xs[k..k + 1] == [xs[k]] && ys[k..k + 1] == [ys[k]];
    var s := Fold(sum, xs[..k]);
    FoldOne(s, xs[k]);
    FoldOne(s, ys[k]);
    if Step(s, xs[k]) == Step(s, ys[k]) {
      StepInjectiveInElement(s, xs[k], ys[k]);
    }
  }

  lemma FoldOne(sum: DWord, e: DWord)
    ensures Fold(sum, [e]) == Step(sum, e)
  {
    assert [e][..0] == [];
  }

  lemma FoldTwo(sum: DWord, e: DWord, f: DWord)
    ensures Fold(sum, [e, f]) == Step(Step(sum, e), f)
  {
    assert [e, f][..1] == [e];
    FoldOne(sum, e);
  }

  // ---------------------------------------------------------------------------------------------
  // Changes confined to the low bytes of two adjacent elements

  ghost predicate SameHigh(a: nat, b: nat) {
    a / 0x100 == b / 0x100
  }

  lemma {:induction false} XorZero(a: nat, b: nat)
    requires Xor(a, b) == 0
    ensures a == b
    decreases a + b
  {
    if a == 0 && b == 0 {
    } else {
      XorZero(a / 2, b / 2);
    }
  }

  /** Mixing in elements that share their high part keeps, and reveals, equality of high parts. */
  lemma XorSameHigh(a: DWord, b: DWord, e: DWord, f: DWord)
    requires SameHigh(e, f)
    ensures SameHigh(a, b) <==> SameHigh(Xor(a, e), Xor(b, f))
  {
    XorHigh(a, e);
    XorHigh(b, f);
    XorCancel(a / 0x100, e / 0x100);
    XorCancel(b / 0x100, f / 0x100);
  }

  /**
   * The prime is 2^40 + 435, so multiplying spreads a difference of less than 2^8 to more than
   * 2^40: products whose high parts agree come from equal factors.
   */
  lemma PrimeSpreads(a: DWord, b: DWord)
    requires SameHigh(a, b)
    requires SameHigh(a * FNV_PRIME % WORD64, b * FNV_PRIME % WORD64)
    ensures a == b
  {
    var p, q := a * FNV_PRIME, b * FNV_PRIME;
    var k := p / WORD64 - q / WORD64;
    assert (a - b) * FNV_PRIME == k * WORD64 + (p % WORD64 - q % WORD64);
    assert -0x100 < a - b < 0x100;
    assert -0x100 < p % WORD64 - q % WORD64 < 0x100;
    assert k == 0;
  }

  /** Two adjacent elements altered in their low bytes only always change the fold. */
  lemma AdjacentLowBytesDetected(sum: DWord, e: DWord, f: DWord, e': DWord, f': DWord)
    requires SameHigh(e, e') && SameHigh(f, f')
    requires Step(Step(sum, e), f) == Step(Step(sum, e'), f')
    ensures e == e' && f == f'
  {
    var a, b := Step(sum, e), Step(sum, e');
    XorFits(sum, e);
    XorFits(sum, e');
    XorFits(a, f);
    XorFits(b, f');
    PrimeInvertible(Xor(a, f));
    PrimeInvertible(Xor(b, f'));
    assert Xor(a, f) == Xor(b, f');
    XorSameHigh(a, b, f, f');
    XorSameHigh(sum, sum, e, e');
    PrimeSpreads(Xor(sum, e), Xor(sum, e'));
    XorCommutes(sum, e);
    XorCommutes(sum, e');
    XorCancel(e, sum);
    XorCancel(e', sum);
    StepInjectiveInElement(a, f, f');
  }

  // ---------------------------------------------------------------------------------------------
  // checksum_hmx_output

  function ByteElement(b: Byte, i: nat): DWord {
    b + i % WORD32 * WORD32
  }

  /** For the lengths the source can read: the byte in the low word, its index in the high one. */
  lemma ByteElementParts(b: Byte, i: nat)
    requires i <= INT_MAX
    ensures ByteElement(b, i) % WORD32 == b && ByteElement(b, i) / WORD32 == i
  {
    QuotientIs(i, WORD32, 0, i);
    QuotientIs(ByteElement(b, i), WORD32, i, b);
  }

  lemma ByteElementSplits(a: Byte, b: Byte, i: nat)
    ensures SameHigh(ByteElement(a, i), ByteElement(b, i))
    ensures ByteElement(a, i) == ByteElement(b, i) <==> a == b
  {
    var high := i % WORD32 * (WORD32 / 0x100);
    QuotientIs(ByteElement(a, i), 0x100, high, a);
    QuotientIs(ByteElement(b, i), 0x100, high, b);
  }

  function ByteElements(data: seq<Byte>): (es: seq<DWord>)
    ensures |es| == |data|
  {
    seq(|data|, i requires 0 <= i < |data| => ByteElement(data[i], i))
  }

  function HmxOutputChecksum(data: seq<Byte>): DWord {
    Fold(FNV_OFFSET, ByteElements(data))
  }

  lemma HmxOutputChecksumSnoc(data: seq<Byte>, b: Byte)
    ensures HmxOutputChecksum(data + [b]) == Step(HmxOutputChecksum(data), ByteElement(b, |data|))
  {
    var es := ByteElements(data + [b]);
    assert es[..|data|] == ByteElements(data);
  }

  /** A negative length reads nothing, as in the loop of the source. */
  method ChecksumHmxOutput(data: array<Byte>, len: int) returns (sum: DWord)
    requires len <= data.Length && len <= INT_MAX
    ensures sum == HmxOutputChecksum(if len < 0 then [] else data[..len])
  {
    sum := FNV_OFFSET;
    var i := 0;
    while i < len
      invariant 0 <= i && (i <= len || i == 0)
      invariant i <= data.Length && sum == HmxOutputChecksum(data[..i])
    {
      HmxOutputChecksumSnoc(data[..i], data[i]);
      assert data[..i + 1] == data[..i] + [data[i]];
      sum := XorDWord(sum, ByteElement(data[i], i));
      sum := sum * FNV_PRIME % WORD64;
      i := i + 1;
    }
  }

  /** Two outputs of any length that differ at most at byte k: equal checksums iff equal bytes. */
  lemma HmxSingleByteDetected(x: seq<Byte>, y: seq<Byte>, k: nat)
    requires k < |x| && AgreeOutside(x, y, k, k + 1)
    ensures HmxOutputChecksum(x) == HmxOutputChecksum(y) <==> x == y
  {
    var es, fs := ByteElements(x), ByteElements(y);
    SingleElementDetected(FNV_OFFSET, es, fs, k);
    if x[k] == y[k] {
      assert x == y;
    }
  }

  /** Any corruption confined to two adjacent bytes, at any place of an output of any length, is detected. */
  lemma HmxAdjacentBytesDetected(x: seq<Byte>, y: seq<Byte>, k: nat)
    requires k + 2 <= |x| && AgreeOutside(x, y, k, k + 2)
    ensures HmxOutputChecksum(x) == HmxOutputChecksum(y) <==> x == y
  {
    if HmxOutputChecksum(x) == HmxOutputChecksum(y) {
      assert AgreeOutside(ByteElements(x), ByteElements(y), k, k + 2);
      AdjacentFold(ByteElements(x), ByteElements(y), k);
      ByteElementSplits(x[k], y[k], k);
      ByteElementSplits(x[k + 1], y[k + 1], k + 1);
      var s := Fold(FNV_OFFSET, ByteElements(x)[..k]);
      AdjacentLowBytesDetected(s, ByteElement(x[k], k), ByteElement(x[k + 1], k + 1),
                               ByteElement(y[k], k), ByteElement(y[k + 1], k + 1));
      assert x == y;
    }
  }

  lemma AdjacentFold(es: seq<DWord>, fs: seq<DWord>, k: nat)
    requires k + 2 <= |es| && AgreeOutside(es, fs, k, k + 2)
    requires Fold(FNV_OFFSET, es) == Fold(FNV_OFFSET, fs)
    ensures var s := Fold(FNV_OFFSET, es[..k]); Step(Step(s, es[k]), es[k + 1]) == Step(Step(s, fs[k]), fs[k + 1])
  {
    FoldWindow(FNV_OFFSET, es, fs, k, k + 2);
    var s := Fold(FNV_OFFSET, es[..k]);
    assert es[k..k + 2] == [es[k], es[k + 1]];
    assert fs[k..k + 2] == [fs[k], fs[k + 1]];
    FoldTwo(s, es[k], es[k + 1]);
    FoldTwo(s, fs[k], fs[k + 1]);
  }

  // ---------------------------------------------------------------------------------------------
  // mix_checksum

  function ThreadElement(value: DWord, index: nat): DWord {
    (value + GOLDEN + index * 64 % WORD64 + index / 4) % WORD64
  }

  function MixChecksum(acc: DWord, value: DWord, index: nat): DWord {
    Step(acc, ThreadElement(value, index))
  }

  function ThreadElements(values: seq<DWord>): (es: seq<DWord>)
    ensures |es| == |values|
  {
    seq(|values|, i requires 0 <= i < |values| => ThreadElement(values[i], i))
  }

  /** The checksum of a row: the thread checksums mixed in index order. */
  function ThreadsChecksum(values: seq<DWord>): DWord {
    Fold(FNV_OFFSET, ThreadElements(values))
  }

  lemma ThreadsChecksumSnoc(values: seq<DWord>, value: DWord)
    ensures ThreadsChecksum([]) == FNV_OFFSET
    ensures ThreadsChecksum(values + [value]) == MixChecksum(ThreadsChecksum(values), value, |values|)
  {
    var es := ThreadElements(values + [value]);
    assert es[..|values|] == ThreadElements(values);
  }

  /**
   * How the index of a thread enters: with index 4q + r, shifted left by six it is 256q + 64r, and shifted
   * right by two it is q, so each four threads add 257 to the element, and each one in between 64.
   */
  lemma ThreadElementByIndex(value: DWord, q: nat, r: nat)
    requires r < 4 && q < 0x400_0000_0000_0000 / 4
    ensures ThreadElement(value, 4 * q + r) == (value + 0x9e3779b97f4a7c15 + 257 * q + 64 * r) % WORD64
  {
    QuotientIs(4 * q + r, 4, q, r);
    QuotientIs((4 * q + r) * 64, WORD64, 0, (4 * q + r) * 64);
  }

  lemma SameSum(v: DWord, w: DWord, c: nat)
    requires (v + c) % WORD64 == (w + c) % WORD64
    ensures v == w
  {
    var i, j := (v + c) / WORD64, (w + c) / WORD64;
    assert v - w == (i - j) * WORD64;
  }

  lemma ThreadElementInjective(v: DWord, w: DWord, index: nat)
    ensures ThreadElement(v, index) == ThreadElement(w, index) <==> v == w
  {
    var c := GOLDEN + index * 64 % WORD64 + index / 4;
    if (v + c) % WORD64 == (w + c) % WORD64 {
      SameSum(v, w, c);
    }
  }

  /** Rows whose thread checksums differ at most at thread k agree iff that thread agrees. */
  lemma ThreadChecksumDetected(v: seq<DWord>, w: seq<DWord>, k: nat)
    requires k < |v| && AgreeOutside(v, w, k, k + 1)
    ensures ThreadsChecksum(v) == ThreadsChecksum(w) <==> v == w
  {
    SingleElementDetected(FNV_OFFSET, ThreadElements(v), ThreadElements(w), k);
    ThreadElementInjective(v[k], w[k], k);
    if v[k] == w[k] {
      assert v == w;
    }
  }
}
