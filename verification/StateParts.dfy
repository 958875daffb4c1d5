/** The checksum state in parts, and what one lane does to two states that differ in bit 31. */
module StateParts {
  import opened Words
  import opened Checksum
  import opened Vectors
  import opened XorBits

  function High(s: DWord): Word {
    s / WORD32
  }

  function Bit31(s: DWord): nat {
    s / HALF % 2
  }

  function Low31(s: DWord): nat {
    s % HALF
  }

  lemma Parts(s: DWord)
    ensures s == High(s) * WORD32 + (Bit31(s) * HALF + Low31(s))
    ensures s / HALF == 2 * High(s) + Bit31(s) && Bit31(s) < 2 && Low31(s) < HALF
  {
  }

  lemma PartsAre(h: Word, b: nat, l: nat, s: DWord)
    requires b < 2 && l < HALF && s == h * WORD32 + (b * HALF + l)
    ensures High(s) == h && Bit31(s) == b && Low31(s) == l
  {
    QuotientIs(s, WORD32, h, b * HALF + l);
    QuotientIs(s, HALF, 2 * h + b, l);
  }

  lemma JoinedParts(h: nat, b: nat, m: nat, l: nat, c: nat, w: nat)
    requires b < 2 && m < HALF && c < 2 && w < HALF
    ensures Xor(m, w) < HALF
    ensures Xor(h * WORD32 + (b * HALF + m), l * WORD32 + (c * HALF + w))
      == Xor(h, l) * WORD32 + ((b + c) % 2 * HALF + Xor(m, w))
  {
    hide Xor;
    PowersUsed();
    XorJoin(b, c, m, w, 31);
    BitXor(b, c);
    XorJoin(h, l, b * HALF + m, c * HALF + w, 32);
  }

  function XorHigh32(q: DWord, l: nat): Word
    requires l < LANES
  {
    PowersUsed();
    XorBelowPow2(High(q), l, 32);
    Xor(High(q), l)
  }

  /** A word mixed into a state at lane l, part by part; b is the word's own bit 31. */
  lemma MixedParts(s: DWord, l: nat, b: nat, w: nat)
    requires l < LANES && b < 2 && w < HALF
    ensures b * HALF + w < WORD32
    ensures var x := XorDWord(s, WordElement(b * HALF + w, l));
      High(x) == XorHigh32(s, l) && Bit31(x) == (Bit31(s) + b) % 2 && Low31(x) == Xor(Low31(s), w)
  {
    hide Xor;
    XorFits(s, WordElement(b * HALF + w, l));
    Parts(s);
    JoinedParts(High(s), Bit31(s), Low31(s), l, b, w);
    PartsAre(XorHigh32(s, l), (Bit31(s) + b) % 2, Xor(Low31(s), w), Xor(s, WordElement(b * HALF + w, l)));
  }

  /** The second state has bit 31 flipped when b is one, and may differ in bit 63, but nowhere else. */
  ghost predicate Close(s: DWord, t: DWord, b: nat) {
    && Low31(t) == Low31(s) && Bit31(t) == (Bit31(s) + b) % 2
    && High(t) % HALF == High(s) % HALF
  }

  // ---------------------------------------------------------------------------------------------
  // No lane makes bit 31 of the state flip for every word

  lemma UndoPrime(x: int, y: int, t: int)
    requires Cong(x * FNV_PRIME, y * FNV_PRIME + t, WORD63)
    ensures Cong(x, y + t * FNV_INVERSE, WORD63)
  {
    var k := FNV_PRIME * FNV_INVERSE / WORD63;
    assert FNV_PRIME * FNV_INVERSE == k * WORD63 + 1;
    CongMul(x * FNV_PRIME, y * FNV_PRIME + t, FNV_INVERSE, WORD63);
    var j: int :| x * FNV_PRIME * FNV_INVERSE == (y * FNV_PRIME + t) * FNV_INVERSE + j * WORD63;
    assert x * FNV_PRIME * FNV_INVERSE == x + x * k * WORD63;
    assert (y * FNV_PRIME + t) * FNV_INVERSE == y + t * FNV_INVERSE + y * k * WORD63;
    assert x == y + t * FNV_INVERSE + (j + y * k - x * k) * WORD63;
  }

  lemma ScaledProduct(h: nat, c: nat)
    requires c < WORD32
    ensures (h * WORD32 + c) % WORD64 == h % WORD32 * WORD32 + c
  {
    assert h == h / WORD32 * WORD32 + h % WORD32;
    assert h * WORD32 + c == h / WORD32 * WORD64 + (h % WORD32 * WORD32 + c);
    QuotientIs(h * WORD32 + c, WORD64, h / WORD32, h % WORD32 * WORD32 + c);
  }

  /** A state whose low word is zero, or only bit 31, has a successor of the same shape. */
  lemma PlainProduct(h: Word, b: nat)
    requires b < 2
    ensures var s: DWord := (h * WORD32 + b * HALF) * FNV_PRIME % WORD64; Low31(s) == 0 && Bit31(s) == b
  {
    var g := h * FNV_PRIME + b * (0x80_0000_0000 + 217);
    assert (h * WORD32 + b * HALF) * FNV_PRIME == g * WORD32 + b * HALF;
    ScaledProduct(g, b * HALF);
    PartsAre(g % WORD32, b, 0, (h * WORD32 + b * HALF) * FNV_PRIME % WORD64);
  }

  /** Plus one for a bit that is clear, minus one for a bit that is set. */
  function Sign(b: nat): int {
    1 - 2 * b
  }

  lemma CloseDifference(s: DWord, t: DWord)
    requires Close(s, t, 1) && Low31(s) == 0
    ensures Cong(t, s + Sign(Bit31(s)) * HALF, WORD63)
  {
    Parts(s);
    Parts(t);
    var k := High(t) / HALF - High(s) / HALF;
    assert High(t) - High(s) == k * HALF;
    assert t == s + Sign(Bit31(s)) * HALF + k * WORD63;
  }

  /** Both successors reduced: the factors differ as their products do. */
  lemma FactorsDiffer(x: DWord, y: DWord, c: int)
    requires Cong(y * FNV_PRIME % WORD64, x * FNV_PRIME % WORD64 + c, WORD63)
    ensures Cong(y, x + c * FNV_INVERSE, WORD63)
  {
    var k: int :| y * FNV_PRIME % WORD64 == x * FNV_PRIME % WORD64 + c + k * WORD63;
    var i, j := x * FNV_PRIME / WORD64, y * FNV_PRIME / WORD64;
    assert y * FNV_PRIME == x * FNV_PRIME + c + (k + 2 * j - 2 * i) * WORD63;
    UndoPrime(y, x, c);
  }

  /** The low words of both sides agree, so the high words do too. */
  lemma HighOfSum(h: Word, b: nat, y: DWord, n: int)
    requires b < 2
    requires y == h * WORD32 + b * HALF + Sign(b) * HALF * FNV_INVERSE + n * WORD63
    ensures Cong(High(y), h + Sign(b) * 0x57fb4abd, HALF)
  {
    Parts(y);
    var m := n + Sign(b) * 0xce965057;
    assert HALF * FNV_INVERSE == 0x57fb4abd * WORD32 + HALF + 0xce965057 * WORD63;
    assert y == (h + Sign(b) * 0x57fb4abd + m * HALF) * WORD32 + (b * HALF + Sign(b) * HALF);
    QuotientUnique(WORD32, High(y), y % WORD32, h + Sign(b) * 0x57fb4abd + m * HALF, b * HALF + Sign(b) * HALF);
  }

  /** If the flip survives a plain state, the high words before the product differ by a fixed amount. */
  lemma FlipFixesHigh(h: Word, b: nat, y: DWord)
    requires b < 2
    requires Close((h * WORD32 + b * HALF) * FNV_PRIME % WORD64, y * FNV_PRIME % WORD64, 1)
    ensures Cong(High(y), h + Sign(b) * 0x57fb4abd, HALF)
  {
    var x: DWord := h * WORD32 + b * HALF;
    PlainProduct(h, b);
    CloseDifference(x * FNV_PRIME % WORD64, y * FNV_PRIME % WORD64);
    FactorsDiffer(x, y, Sign(b) * HALF);
    var n: int :| y == x + Sign(b) * HALF * FNV_INVERSE + n * WORD63;
    HighOfSum(h, b, y, n);
  }

  /** The word that leaves only bit b of weight 2^31 in the low part of the mixed state. */
  function Plain(q: DWord, b: nat): Word
    requires b < 2
  {
    (Bit31(q) + b) % 2 * HALF + Low31(q)
  }

  lemma PlainMixed(q: DWord, l: nat, b: nat)
    requires l < LANES && b < 2
    ensures XorDWord(q, WordElement(Plain(q, b), l)) == XorHigh32(q, l) * WORD32 + b * HALF
  {
    MixedParts(q, l, (Bit31(q) + b) % 2, Low31(q));
    XorSelf(Low31(q));
    Parts(XorDWord(q, WordElement(Plain(q, b), l)));
  }

  /** A flip under the plain word fixes the high word of the other state. */
  lemma FlipUnderPlain(q: DWord, t: DWord, l: nat, r: Word, b: nat)
    requires l < LANES && b < 2
    requires var w := Plain(q, b); Close(Step(q, WordElement(w, l)), Step(t, WordElement((w + r) % WORD32, l)), 1)
    ensures Cong(XorHigh32(t, l), XorHigh32(q, l) + Sign(b) * 0x57fb4abd, HALF)
  {
    hide Xor, XorDWord;
    var v: Word := (Plain(q, b) + r) % WORD32;
    PlainMixed(q, l, b);
    MixedParts(t, l, v / HALF, v % HALF);
    FlipFixesHigh(XorHigh32(q, l), b, XorDWord(t, WordElement(v, l)));
  }

  lemma SignsDiffer(h: int, i: int, j: int)
    ensures h + Sign(0) * 0x57fb4abd + i * HALF != h + Sign(1) * 0x57fb4abd + j * HALF
  {
  }

  lemma NotBothSigns(g: int, h: int)
    requires Cong(g, h + Sign(0) * 0x57fb4abd, HALF)
    ensures !Cong(g, h + Sign(1) * 0x57fb4abd, HALF)
  {
    var i: int :| g == h + Sign(0) * 0x57fb4abd + i * HALF;
    forall j: int
      ensures g != h + Sign(1) * 0x57fb4abd + j * HALF
    {
      SignsDiffer(h, i, j);
    }
  }

  /** Whatever the two states before a lane are, some word in it keeps them from differing just in bit 31. */
  lemma NoUniformFlip(q: DWord, t: DWord, l: nat, r: Word) returns (w: Word)
    requires l < LANES
    ensures !Close(Step(q, WordElement(w, l)), Step(t, WordElement((w + r) % WORD32, l)), 1)
  {
    w := Plain(q, 0);
    if Close(Step(q, WordElement(w, l)), Step(t, WordElement((w + r) % WORD32, l)), 1) {
      FlipUnderPlain(q, t, l, r, 0);
      w := Plain(q, 1);
      if Close(Step(q, WordElement(w, l)), Step(t, WordElement((w + r) % WORD32, l)), 1) {
        FlipUnderPlain(q, t, l, r, 1);
        NotBothSigns(XorHigh32(t, l), XorHigh32(q, l));
      }
    }
  }

  // ---------------------------------------------------------------------------------------------
  // From the states after a lane back to those before it

  lemma CongruentParts(x: DWord, y: DWord)
    requires Cong(y, x, WORD63)
    ensures Low31(y) == Low31(x) && Bit31(y) == Bit31(x) && High(y) % HALF == High(x) % HALF
  {
    Parts(x);
    Parts(y);
    var k: int :| y == x + k * WORD63;
    QuotientUnique(WORD32, High(y), y % WORD32, High(x) + k * HALF, x % WORD32);
    ModShift(High(x), k, HALF);
  }

  lemma HighLow(q: DWord, l: nat)
    requires l < LANES
    ensures XorHigh32(q, l) % HALF == Xor(High(q) % HALF, l)
  {
    hide Xor;
    PowersUsed();
    var h, m := High(q) / HALF, High(q) % HALF;
    XorJoin(h, 0, m, l, 31);
    assert High(q) == h * HALF + m;
    QuotientIs(XorHigh32(q, l), HALF, Xor(h, 0), Xor(m, l));
  }

  lemma HighCancels(q: DWord, t: DWord, l: nat)
    requires l < LANES && XorHigh32(q, l) % HALF == XorHigh32(t, l) % HALF
    ensures High(q) % HALF == High(t) % HALF
  {
    HighLow(q, l);
    HighLow(t, l);
    XorSame(High(q) % HALF, High(t) % HALF, l);
  }

  /** A word mixed into a state at lane l, part by part. */
  lemma MixedWord(s: DWord, l: nat, v: Word)
    requires l < LANES
    ensures var x := XorDWord(s, WordElement(v, l));
      && High(x) == XorHigh32(s, l) && Bit31(x) == (Bit31(s) + v / HALF) % 2
      && Low31(x) == Xor(Low31(s), v % HALF)
  {
    MixedParts(s, l, v / HALF, v % HALF);
  }

  /** A word with no bits below bit 31 leaves those of the state alone. */
  lemma MixedTop(s: DWord, l: nat, b: nat)
    requires l < LANES && b < 2
    ensures b * HALF < WORD32
    ensures var x := XorDWord(s, WordElement(b * HALF, l));
      High(x) == XorHigh32(s, l) && Bit31(x) == (Bit31(s) + b) % 2 && Low31(x) == Low31(s)
  {
    MixedParts(s, l, b, 0);
    XorZeroRight(Low31(s));
  }

  /** Mixed with zero, and with bit b of weight 2^31, two states that come out alike were close before. */
  lemma CloseBeforeMix(q: DWord, t: DWord, l: nat, b: nat)
    requires l < LANES && b < 2
    requires Cong(XorDWord(t, WordElement(b * HALF, l)), XorDWord(q, WordElement(0 * HALF, l)), WORD63)
    ensures Close(q, t, b)
  {
    hide Xor, XorDWord;
    MixedTop(q, l, 0);
    MixedTop(t, l, b);
    CongruentParts(XorDWord(q, WordElement(0 * HALF, l)), XorDWord(t, WordElement(b * HALF, l)));
    HighCancels(q, t, l);
    BitMoves(Bit31(q), Bit31(t), b);
  }

  lemma BitMoves(c: nat, d: nat, b: nat)
    requires c < 2 && d < 2 && b < 2 && c == (d + b) % 2
    ensures d == (c + b) % 2
  {
  }

  lemma CloseBefore(q: DWord, t: DWord, l: nat, b: nat)
    requires l < LANES && b < 2
    requires Close(Step(q, WordElement(0 * HALF, l)), Step(t, WordElement(b * HALF, l)), 0)
    ensures Close(q, t, b)
  {
    var s, u := Step(q, WordElement(0 * HALF, l)), Step(t, WordElement(b * HALF, l));
    Parts(s);
    Parts(u);
    assert u == s + (High(u) / HALF - High(s) / HALF) * WORD63;
    FactorsDiffer(XorDWord(q, WordElement(0 * HALF, l)), XorDWord(t, WordElement(b * HALF, l)), 0);
    CloseBeforeMix(q, t, l, b);
  }

  lemma SameMask(a: nat, c: nat, m: nat, n: nat)
    requires a == Xor(c, m) && Xor(a, n) == c
    ensures m == n && (m == 0 ==> a == c)
  {
    XorCancel(c, m);
    XorCommutes(a, m);
    XorCommutes(a, n);
    XorSame(m, n, a);
    XorZeroRight(c);
  }

  lemma SameBit(c: nat, d: nat, m: nat, n: nat)
    requires c < 2 && d < 2 && m < 2 && n < 2 && (c + 0) % 2 == (d + m) % 2 && (c + n) % 2 == (d + 0) % 2
    ensures m == n && d == (c + m) % 2
  {
  }

  lemma HalfOnly(r: Word)
    requires r > 0 && r % HALF == (WORD32 - r) % HALF && r / HALF == (WORD32 - r) / HALF
    ensures r == HALF
  {
  }

  /** Words zero and -r at a lane that is shifted by r: if both go unnoticed, r is 2^31 and the states are close. */
  lemma TwoWords(q: DWord, t: DWord, l: nat, r: Word)
    requires l < LANES && r > 0
    requires Step(q, WordElement(0, l)) == Step(t, WordElement((0 + r) % WORD32, l))
    requires Step(q, WordElement(WORD32 - r, l)) == Step(t, WordElement((WORD32 - r + r) % WORD32, l))
    ensures r == HALF && Close(q, t, 1)
  {
    hide Xor, XorDWord, Step;
    QuotientIs(WORD32 - r + r, WORD32, 1, 0);
    EqualMix(q, t, l, 0, r);
    EqualMix(q, t, l, WORD32 - r, 0);
    XorZeroRight(Low31(q));
    XorZeroRight(Low31(t));
    SameMask(Low31(q), Low31(t), r % HALF, (WORD32 - r) % HALF);
    SameBit(Bit31(q), Bit31(t), r / HALF, (WORD32 - r) / HALF);
    HalfOnly(r);
    HighCancels(q, t, l);
  }

  lemma EqualMix(q: DWord, t: DWord, l: nat, v: Word, w: Word)
    requires l < LANES && Step(q, WordElement(v, l)) == Step(t, WordElement(w, l))
    ensures XorHigh32(q, l) == XorHigh32(t, l)
    ensures (Bit31(q) + v / HALF) % 2 == (Bit31(t) + w / HALF) % 2
    ensures Xor(Low31(q), v % HALF) == Xor(Low31(t), w % HALF)
  {
    StepInjective(q, t, WordElement(v, l), WordElement(w, l));
    MixedWord(q, l, v);
    MixedWord(t, l, w);
  }

  lemma StepSame(q: DWord, t: DWord, e: DWord)
    requires Step(q, e) == Step(t, e)
    ensures q == t
  {
    StepBijective(q, e);
    StepBijective(t, e);
  }

  lemma StepInjective(q: DWord, t: DWord, e: DWord, f: DWord)
    requires Step(q, e) == Step(t, f)
    ensures XorDWord(q, e) == XorDWord(t, f)
  {
    PrimeInvertible(XorDWord(q, e));
    PrimeInvertible(XorDWord(t, f));
  }

  // ---------------------------------------------------------------------------------------------
  // The masks after a lane, for every word in it

  /** The product of a state with the prime, split at bit 31. */
  lemma ProductParts(h: nat, low: nat)
    requires low < HALF
    ensures (h * HALF + low) * FNV_PRIME % WORD64 == (h * FNV_PRIME + Carry(low)) % SPAN * HALF + low * FNV_PRIME % HALF
  {
    var k, m := h * FNV_PRIME + Carry(low), low * FNV_PRIME % HALF;
    assert (h * HALF + low) * FNV_PRIME == k * HALF + m;
    assert k == k / SPAN * SPAN + k % SPAN;
    QuotientIs(k * HALF + m, WORD64, k / SPAN, k % SPAN * HALF + m);
  }

  /** The 33 upper bits of a state with a word mixed in at lane l, of which b is the top bit. */
  function Upper(s: DWord, l: nat, b: nat): nat
    requires l < LANES && b < 2
  {
    2 * XorHigh32(s, l) + (Bit31(s) + b) % 2
  }

  lemma StepParts(s: DWord, l: nat, b: nat, w: nat)
    requires l < LANES && b < 2 && w < HALF
    ensures b * HALF + w < WORD32 && Xor(Low31(s), w) < HALF
    ensures var low := Xor(Low31(s), w);
      Step(s, WordElement(b * HALF + w, l))
      == (Upper(s, l, b) * FNV_PRIME + Carry(low)) % SPAN * HALF + low * FNV_PRIME % HALF
  {
    hide Xor;
    MixedParts(s, l, b, w);
    var x := XorDWord(s, WordElement(b * HALF + w, l));
    Parts(x);
    ProductParts(Upper(s, l, b), Low31(x));
    assert x == Upper(s, l, b) * HALF + Low31(x);
  }

  lemma HalfWord(w: Word, r: Word)
    requires r == 0 || r == HALF
    ensures (w + r) % WORD32 == (w / HALF + r / HALF) % 2 * HALF + w % HALF
  {
  }

  lemma LowOfStep(s: DWord, l: nat, b: nat, w: nat)
    requires l < LANES && b < 2 && w < HALF
    ensures b * HALF + w < WORD32
    ensures Low31(Step(s, WordElement(b * HALF + w, l))) == Xor(Low31(s), w) * FNV_PRIME % HALF
  {
    StepParts(s, l, b, w);
    var low := Xor(Low31(s), w);
    QuotientIs(Step(s, WordElement(b * HALF + w, l)), HALF, (Upper(s, l, b) * FNV_PRIME + Carry(low)) % SPAN,
               low * FNV_PRIME % HALF);
  }

  lemma StepLow(q: DWord, t: DWord, l: nat, w: Word, r: Word)
    requires l < LANES && (r == 0 || r == HALF) && Low31(q) == Low31(t)
    ensures Low31(Step(q, WordElement(w, l))) == Low31(Step(t, WordElement((w + r) % WORD32, l)))
  {
    HalfWord(w, r);
    LowOfStep(q, l, w / HALF, w % HALF);
    LowOfStep(t, l, (w / HALF + r / HALF) % 2, w % HALF);
  }

  /** The word that makes the low bits after mixing what is asked for. */
  function Steering(s: DWord, low: nat): (w: nat)
    requires low < HALF
    ensures w < HALF && Xor(Low31(s), w) == low
  {
    PowersUsed();
    XorBelowPow2(Low31(s), low, 31);
    XorCommutes(Low31(s), low);
    XorCancel(low, Low31(s));
    XorCommutes(Low31(s), Xor(Low31(s), low));
    Xor(Low31(s), low)
  }

  /** The upper bits of the state after a lane whose low bits were steered. */
  function Reached(s: DWord, l: nat, b: nat, low: nat): nat
    requires l < LANES && b < 2
  {
    (Upper(s, l, b) * FNV_PRIME + Carry(low)) % SPAN
  }

  lemma SteeredStep(s: DWord, l: nat, b: nat, low: nat)
    requires l < LANES && b < 2 && low < HALF
    ensures b * HALF + Steering(s, low) < WORD32
    ensures Step(s, WordElement(b * HALF + Steering(s, low), l))
      == Reached(s, l, b, low) * HALF + low * FNV_PRIME % HALF
  {
    StepParts(s, l, b, Steering(s, low));
  }

  lemma MaskOfParts(u: nat, v: nat, m: nat)
    requires m < HALF
    ensures Xor(v * HALF + m, u * HALF + m) == Xor(v, u) * HALF
  {
    PowersUsed();
    XorJoin(v, u, m, m, 31);
    XorSelf(m);
  }

  /** The mask between two states after a lane where the second is shifted by b times 2^31. */
  function LaneMask(s: DWord, t: DWord, l: nat, b: nat, w: Word): DWord
    requires l < LANES && b < 2
  {
    XorDWord(Step(t, WordElement((w + b * HALF) % WORD32, l)), Step(s, WordElement(w, l)))
  }

  lemma LowWord(w: nat, b: nat)
    requires w < HALF && b < 2
    ensures (w + b * HALF) % WORD32 == b * HALF + w < WORD32
  {
  }

  lemma LaneMaskOf(s: DWord, t: DWord, l: nat, b: nat, w: nat, u: nat, v: nat, m: nat)
    requires l < LANES && b < 2 && w < HALF && m < HALF
    requires b * HALF + w < WORD32 && Step(t, WordElement(b * HALF + w, l)) == v * HALF + m
    requires Step(s, WordElement(w, l)) == u * HALF + m
    ensures LaneMask(s, t, l, b, w) == Xor(v, u) * HALF
  {
    LowWord(w, b);
    MaskOfParts(u, v, m);
  }

  lemma LaneMaskIs(s: DWord, t: DWord, l: nat, b: nat, low: nat)
    requires l < LANES && b < 2 && low < HALF && Low31(s) == Low31(t)
    ensures LaneMask(s, t, l, b, Steering(s, low)) == Xor(Reached(t, l, b, low), Reached(s, l, 0, low)) * HALF
  {
    var w := Steering(s, low);
    SteeredStep(s, l, 0, low);
    SteeredStep(t, l, b, low);
    assert w == Steering(t, low) == 0 * HALF + w;
    LaneMaskOf(s, t, l, b, w, Reached(s, l, 0, low), Reached(t, l, b, low), low * FNV_PRIME % HALF);
  }

  lemma SameFactor(u: nat, v: nat)
    requires u * HALF == v * HALF
    ensures u == v
  {
  }

  lemma SameMasks(s: DWord, t: DWord, l: nat, b: nat, low: nat)
    requires l < LANES && b < 2 && Low31(s) == Low31(t) && low < HALF
    requires LaneMask(s, t, l, b, Steering(s, low)) == LaneMask(s, t, l, b, Steering(s, 0))
    ensures SameMaskAt(Upper(t, l, b), Upper(s, l, 0), low)
  {
    hide Xor, XorDWord, Step, LaneMask, Upper;
    assert Carry(0) == 0;
    LaneMaskIs(s, t, l, b, low);
    LaneMaskIs(s, t, l, b, 0);
    SameFactor(Xor(Reached(t, l, b, low), Reached(s, l, 0, low)), Xor(Reached(t, l, b, 0), Reached(s, l, 0, 0)));
  }

  /** The upper bits and the common lower ones together. */
  lemma MixedCong(s: DWord, t: DWord, l: nat, b: nat)
    requires l < LANES && b < 2 && Low31(s) == Low31(t) && Cong(Upper(t, l, b), Upper(s, l, 0), WORD32)
    ensures Cong(XorDWord(t, WordElement(b * HALF, l)), XorDWord(s, WordElement(0 * HALF, l)), WORD63)
  {
    MixedTop(s, l, 0);
    MixedTop(t, l, b);
    Parts(XorDWord(s, WordElement(0 * HALF, l)));
    Parts(XorDWord(t, WordElement(b * HALF, l)));
    var k: int :| Upper(t, l, b) == Upper(s, l, 0) + k * WORD32;
    assert XorDWord(t, WordElement(b * HALF, l)) == XorDWord(s, WordElement(0 * HALF, l)) + k * WORD63;
  }

  ghost predicate FixedMask(s: DWord, t: DWord, l: nat, b: nat, c: DWord)
    requires l < LANES && b < 2
  {
    forall w: Word :: LaneMask(s, t, l, b, w) == c
  }

  /** If the masks after a lane are all the same, the states before it were close. */
  lemma CloseBeforeMask(s: DWord, t: DWord, l: nat, b: nat, c: DWord)
    requires l < LANES && b < 2 && Low31(s) == Low31(t) && FixedMask(s, t, l, b, c)
    ensures Close(s, t, b)
  {
    forall low: nat | low < HALF
      ensures SameMaskAt(Upper(t, l, b), Upper(s, l, 0), low)
    {
      SameMasks(s, t, l, b, low);
    }
    UpperCong(Upper(t, l, b), Upper(s, l, 0));
    MixedCong(s, t, l, b);
    CloseBeforeMix(s, t, l, b);
  }
}
