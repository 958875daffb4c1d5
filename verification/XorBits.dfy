/** Exclusive or and products with the prime, digit by digit. */
module XorBits {
  import opened Words
  import opened Checksum

  const HALF: int := 0x8000_0000
  const WORD63: int := 0x8000_0000_0000_0000
  const SPAN: int := 0x2_0000_0000

  ghost predicate Cong(a: int, b: int, m: int)
    requires m > 0
  {
    exists k: int :: a == b + k * m
  }

  lemma CongMul(a: int, b: int, c: int, m: int)
    requires m > 0 && Cong(a, b, m)
    ensures Cong(a * c, b * c, m)
  {
    var k: int :| a == b + k * m;
    assert a * c == b * c + (k * c) * m;
  }

  lemma Halves(h: nat, p: nat, l: nat)
    ensures (h * (2 * p) + l) / 2 == h * p + l / 2
    ensures (h * (2 * p) + l) % 2 == l % 2
  {
    assert h * (2 * p) == 2 * (h * p);
  }

  lemma Regroup(x: nat, p: nat, y: nat, t: nat)
    ensures 2 * (x * p + y) + t == x * (2 * p) + (2 * y + t)
  {
    assert x * (2 * p) == 2 * (x * p);
  }

  /** Exclusive or works on the high and the low part separately, wherever the two are split. */
  lemma {:induction false} XorJoin(h: nat, g: nat, l: nat, m: nat, n: nat)
    requires l < Pow2(n) && m < Pow2(n)
    ensures Xor(l, m) < Pow2(n)
    ensures Xor(h * Pow2(n) + l, g * Pow2(n) + m) == Xor(h, g) * Pow2(n) + Xor(l, m)
    decreases n, 1
  {
    XorBelowPow2(l, m, n);
    if n == 0 {
      assert l == 0 && m == 0;
    } else {
      XorJoinStep(h, g, l, m, n);
    }
  }

  lemma {:induction false} XorJoinStep(h: nat, g: nat, l: nat, m: nat, n: nat)
    requires n > 0 && l < Pow2(n) && m < Pow2(n)
    ensures Xor(h * Pow2(n) + l, g * Pow2(n) + m) == Xor(h, g) * Pow2(n) + Xor(l, m)
    decreases n, 0
  {
    hide Xor;
    var p := Pow2(n - 1);
    var a, b := h * (2 * p) + l, g * (2 * p) + m;
    Halves(h, p, l);
    Halves(g, p, m);
    calc {
      Xor(a, b);
      { XorUnfold(a, b); }
      2 * Xor(h * p + l / 2, g * p + m / 2) + (a + b) % 2;
      { XorJoin(h, g, l / 2, m / 2, n - 1); }
      2 * (Xor(h, g) * p + Xor(l / 2, m / 2)) + (a + b) % 2;
      { ParityOfSum(a, b, l, m); Regroup(Xor(h, g), p, Xor(l / 2, m / 2), (l + m) % 2); }
      Xor(h, g) * (2 * p) + (2 * Xor(l / 2, m / 2) + (l + m) % 2);
      { XorUnfold(l, m); }
      Xor(h, g) * (2 * p) + Xor(l, m);
    }
  }

  lemma ParityOfSum(a: nat, b: nat, c: nat, d: nat)
    requires a % 2 == c % 2 && b % 2 == d % 2
    ensures (a + b) % 2 == (c + d) % 2
  {
  }

  lemma {:induction false} XorZeroRight(a: nat)
    ensures Xor(a, 0) == a && Xor(0, a) == a
  {
    if a > 0 {
      XorZeroRight(a / 2);
    }
  }

  lemma XorSelf(a: nat)
    ensures Xor(a, a) == 0
  {
    XorZeroRight(a);
    XorCancel(0, a);
  }

  lemma XorSame(a: nat, b: nat, c: nat)
    requires Xor(a, c) == Xor(b, c)
    ensures a == b
  {
    XorCancel(a, c);
    XorCancel(b, c);
  }

  lemma PowersUsed()
    ensures Pow2(31) == HALF && Pow2(32) == WORD32
  {
    assert Pow2(8) == 0x100;
    Pow2Add(8, 8);
    Pow2Add(16, 16);
    assert Pow2(32) == 2 * Pow2(31);
  }

  lemma BitXor(b: nat, c: nat)
    requires b < 2 && c < 2
    ensures Xor(b, c) == (b + c) % 2
  {
  }

  lemma {:induction false} XorSwap(a: nat, b: nat, c: nat)
    ensures Xor(Xor(a, b), c) == Xor(Xor(a, c), b)
    decreases a + b + c
  {
    if a + b + c == 0 {
      assert Xor(0, 0) == 0;
    } else {
      hide Xor;
      var x, y := Xor(a, b), Xor(a, c);
      XorUnfold(a, b);
      XorUnfold(a, c);
      XorSwap(a / 2, b / 2, c / 2);
      SwapParity(a, b, c, x, y);
      XorUnfold(x, c);
      XorUnfold(y, b);
    }
  }

  lemma SwapParity(a: nat, b: nat, c: nat, x: nat, y: nat)
    requires x % 2 == (a + b) % 2 && y % 2 == (a + c) % 2
    ensures (x + c) % 2 == (y + b) % 2
  {
  }

  // ---------------------------------------------------------------------------------------------
  // Carries of the product into bit 31 and above, and the masks they leave

  /** What the low 31 bits of a state carry into its upper 33 when multiplied by the prime. */
  function Carry(low: nat): nat {
    low * FNV_PRIME / HALF
  }

  lemma CarryIs(low: nat, p: nat, rest: nat)
    requires 435 * low == p * HALF + rest && rest < HALF
    ensures Carry(low) == 512 * low + p
  {
    QuotientIs(low * FNV_PRIME, HALF, 512 * low + p, rest);
  }

  lemma OddMultiple(low: nat, p: nat, g: nat)
    requires p > 0 && p * g == 256
    ensures (512 * low + p) % (2 * p) == p
  {
    calc {
      512 * low;
      2 * (p * g) * low;
      { assert p * g * low == g * low * p; }
      g * low * (2 * p);
    }
    QuotientIs(512 * low + p, 2 * p, g * low, p);
  }

  lemma RoundedUp(p: nat)
    requires p <= 256
    ensures var low := (p * HALF + 434) / 435; low < HALF && 0 <= 435 * low - p * HALF < 435
  {
  }

  lemma SmallBits(m: nat)
    requires m < 9
    ensures var low := (Pow2(m) * HALF + 434) / 435; low < HALF && Carry(low) % (2 * Pow2(m)) == Pow2(m)
  {
    hide Carry;
    assert Pow2(8) == 0x100;
    hide Pow2;
    Pow2Add(m, 8 - m);
    PowMonotone(m, 8);
    var p: nat := Pow2(m);
    var low := (p * HALF + 434) / 435;
    RoundedUp(p);
    CarryIs(low, p, 435 * low - p * HALF);
    OddMultiple(low, p, Pow2(8 - m));
  }

  lemma LargeBits(m: nat)
    requires 9 <= m < 32
    ensures var low := Pow2(m - 9); low < HALF && Carry(low) == Pow2(m)
  {
    Pow2Add(9, m - 9);
    PowersUsed();
    Pow2Add(3, 6);
    Pow2Add(3, 3);
    assert Pow2(9) == 512;
    PowMonotone(m - 9, 22);
    Pow2Add(9, 22);
    var p := Pow2(m - 9);
    assert p <= 0x40_0000;
    QuotientIs(p * FNV_PRIME, HALF, 512 * p, 435 * p);
  }

  lemma {:induction false} OddPart(d: nat) returns (m: nat, e: nat)
    requires d > 0
    ensures d == Pow2(m) * e && e % 2 == 1
    decreases d
  {
    if d % 2 == 1 {
      m, e := 0, d;
    } else {
      m, e := OddPart(d / 2);
      assert d == 2 * (Pow2(m) * e);
      m := m + 1;
      assert Pow2(m) * e == 2 * (Pow2(m - 1) * e);
    }
  }

  lemma SmallXor(a: nat, b: nat)
    requires a < 4 && b < 4
    ensures Xor(b, a) == 2 * ((a / 2 + b / 2) % 2) + (a + b) % 2
  {
    XorUnfold(b, a);
    BitXor(b / 2, a / 2);
  }

  lemma MaskAbove(c: nat, d: nat, r: nat, m: nat)
    requires r < Pow2(m)
    ensures Xor(d * Pow2(m) + r, c * Pow2(m) + r) / Pow2(m) == Xor(d, c)
  {
    XorJoin(d, c, r, r, m);
    XorSelf(r);
    QuotientIs(Xor(d, c) * Pow2(m), Pow2(m), Xor(d, c), 0);
  }

  lemma JoinMod4(h: nat, g: nat, l: nat, m: nat)
    requires l < 4 && m < 4
    ensures Xor(h * 4 + l, g * 4 + m) % 4 == Xor(l, m) < 4
  {
    assert Pow2(2) == 4;
    hide Xor, Pow2;
    XorJoin(h, g, l, m, 2);
    QuotientIs(Xor(h * 4 + l, g * 4 + m), 4, Xor(h, g), Xor(l, m));
  }

  lemma MaskMod4(c: nat, d: nat)
    ensures Xor(d, c) % 4 == Xor(d % 4, c % 4) < 4
  {
    hide Xor;
    DivMod(c, 4);
    DivMod(d, 4);
    JoinMod4(d / 4, c / 4, d % 4, c % 4);
  }

  lemma QuotientMod(a: nat, p: nat, k: nat)
    requires p > 0 && k > 0
    ensures a / p % k == a % (k * p) / p && a % (k * p) % p == a % p
  {
    var q, r := a / (k * p), a % (k * p);
    var c, d := r / p, r % p;
    assert a == q * (k * p) + r && r == c * p + d;
    assert a == (q * k + c) * p + d by {
      assert q * (k * p) == q * k * p;
    }
    QuotientIs(a, p, q * k + c, d);
    QuotientBelow(r, p, k);
    QuotientIs(q * k + c, k, q, c);
  }

  lemma MaskDigit(c: nat, d: nat)
    ensures Xor(d, c) % 4 / 2 == (c % 4 / 2 + d % 4 / 2) % 2
  {
    MaskMod4(c, d);
    SmallXor(c % 4, d % 4);
  }

  lemma DigitsShow(c: nat, d: nat, r: nat, m: nat, e: nat)
    requires r < Pow2(m) && e % 2 == 1 && d % 4 == (c + e) % 4
    ensures Xor(d * Pow2(m) + r, c * Pow2(m) + r) / Pow2(m) % 4 / 2 == (e % 4 / 2 + c % 2) % 2
  {
    MaskAbove(c, d, r, m);
    MaskDigit(c, d);
    NextBit(c, e, d % 4);
  }

  lemma DivMod(a: nat, p: nat)
    requires p > 0
    ensures a == a / p * p + a % p && a / p >= 0 && 0 <= a % p < p
  {
  }

  /** An odd step at position m shows in the mask's next bit according to the bit of a it is added to. */
  lemma GapShows(a: nat, b: nat, m: nat, e: nat)
    requires e % 2 == 1 && b % Pow2(m) == a % Pow2(m) && b / Pow2(m) % 4 == (a / Pow2(m) + e) % 4
    ensures Xor(b, a) / Pow2(m) % 4 / 2 == (e % 4 / 2 + a / Pow2(m) % 2) % 2
  {
    DivMod(a, Pow2(m));
    DivMod(b, Pow2(m));
    DigitsShow(a / Pow2(m), b / Pow2(m), a % Pow2(m), m, e);
  }

  lemma NextBit(c: nat, e: nat, d: nat)
    requires e % 2 == 1 && d == (c + e) % 4
    ensures (c % 4 / 2 + d / 2) % 2 == (e % 4 / 2 + c % 2) % 2
  {
    var m, n := c % 4, e % 4;
    assert m == 0 || m == 1 || m == 2 || m == 3;
    assert n == 1 || n == 3;
    assert c == 4 * (c / 4) + m && e == 4 * (e / 4) + n;
    QuotientIs(c + e, 4, c / 4 + e / 4 + (m + n) / 4, (m + n) % 4);
    QuotientIs(c, 2, 2 * (c / 4) + m / 2, m % 2);
  }

  lemma ReducedDigit(x: nat, p: nat, g: nat, n: nat, y: nat)
    requires p > 0 && g > 0 && n == g * (4 * p) && n > 0 && y == x % n
    ensures y % p == x % p && y / p % 4 == x / p % 4
  {
    QuotientMod(x, 4 * p, g);
    assert y % (4 * p) == x % (4 * p);
    QuotientMod(x, p, 4);
    QuotientMod(y, p, 4);
  }

  lemma Stepped(x: nat, p: nat, e: nat)
    requires p > 0
    ensures (x + p * e) % p == x % p && (x + p * e) / p == x / p + e
  {
    QuotientIs(x + p * e, p, x / p + e, x % p);
  }

  lemma ReducedStep(x: nat, w: nat, p: nat, e: nat, g: nat, n: nat, y: nat, z: nat)
    requires p > 0 && g > 0 && n == g * (4 * p) && n > 0 && y == x % n && z == w % n
    requires w % p == x % p && w / p == x / p + e
    ensures z % p == y % p && z / p % 4 == (y / p + e) % 4 && y / p % 2 == x / p % 2
  {
    ReducedDigit(x, p, g, n, y);
    ReducedDigit(w, p, g, n, z);
    SteppedDigits(x / p, w / p, y / p, z / p, e);
  }

  lemma SteppedDigits(c: nat, d: nat, c': nat, d': nat, e: nat)
    requires d == c + e && c' % 4 == c % 4 && d' % 4 == d % 4
    ensures d' % 4 == (c' + e) % 4 && c' % 2 == c % 2
  {
    ModAddLeft(c, e, 4);
    ModAddLeft(c', e, 4);
    QuotientMod(c, 2, 2);
    QuotientMod(c', 2, 2);
  }

  /** The mask between a reduced number and the one that is an odd step at position m above it. */
  lemma ReducedMask(x: nat, m: nat, e: nat, g: nat, n: nat)
    requires e % 2 == 1 && g > 0 && n > 0 && n == g * (4 * Pow2(m))
    ensures Xor((x + Pow2(m) * e) % n, x % n) / Pow2(m) % 4 / 2 == (e % 4 / 2 + x / Pow2(m) % 2) % 2
  {
    Stepped(x, Pow2(m), e);
    ReducedStep(x, x + Pow2(m) * e, Pow2(m), e, g, n, x % n, (x + Pow2(m) * e) % n);
    GapShows(x % n, (x + Pow2(m) * e) % n, m, e);
  }

  lemma ParityFlips(x: nat, p: nat, c: nat)
    requires p > 0 && c % (2 * p) == p
    ensures (x + c) / p % 2 != x / p % 2
  {
    var t := c / (2 * p);
    assert c == p * (2 * t + 1);
    Stepped(x, p, 2 * t + 1);
  }

  /** Low bits whose carry flips bit m. */
  lemma CarryAt(m: nat) returns (low: nat)
    requires m < 32
    ensures low < HALF && Carry(low) % (2 * Pow2(m)) == Pow2(m)
  {
    if m < 9 {
      SmallBits(m);
      low := (Pow2(m) * HALF + 434) / 435;
    } else {
      LargeBits(m);
      low := Pow2(m - 9);
      QuotientIs(Pow2(m), 2 * Pow2(m), 0, Pow2(m));
    }
  }

  lemma PositionBelow(d: nat, m: nat, e: nat)
    requires d == Pow2(m) * e && e % 2 == 1 && d < SPAN && d != WORD32
    ensures m < 32
  {
    if m >= 32 {
      PowersUsed();
      PowMonotone(32, m);
      if m > 32 {
        PowMonotone(33, m);
      }
      MultipleExceeds(e, Pow2(m));
    }
  }

  /** Two different 33-bit numbers, not 2^32 apart: their mask changes when both carry the same. */
  lemma MaskVaries(a: nat, d: nat) returns (low: nat)
    requires 0 < d < SPAN && d != WORD32
    ensures low < HALF
    ensures Xor((a + Carry(low) + d) % SPAN, (a + Carry(low)) % SPAN) != Xor((a + d) % SPAN, a % SPAN)
  {
    hide Xor, Carry;
    var m, e := OddPart(d);
    PositionBelow(d, m, e);
    low := CarryAt(m);
    Fourfold(m);
    ReducedMask(a, m, e, Pow2(31 - m), SPAN);
    ReducedMask(a + Carry(low), m, e, Pow2(31 - m), SPAN);
    ParityFlips(a, Pow2(m), Carry(low));
  }

  lemma Fourfold(m: nat)
    requires m < 32
    ensures SPAN == Pow2(31 - m) * (4 * Pow2(m))
  {
    PowersUsed();
    Pow2Add(31 - m, m);
    FourTimes(Pow2(31 - m), Pow2(m));
  }

  lemma FourTimes(u: nat, v: nat)
    ensures u * (4 * v) == 4 * (u * v)
  {
  }

  predicate SameMaskAt(g: nat, h: nat, low: nat) {
    Xor((g * FNV_PRIME + Carry(low)) % SPAN, (h * FNV_PRIME + Carry(low)) % SPAN)
    == Xor(g * FNV_PRIME % SPAN, h * FNV_PRIME % SPAN)
  }

  /** Upper bits whose masks agree for all carries differ in their top bit at most. */
  lemma UpperCong(g: nat, h: nat)
    requires forall low: nat :: low < HALF ==> SameMaskAt(g, h, low)
    ensures Cong(g, h, WORD32)
  {
    var x, y := h * FNV_PRIME, g * FNV_PRIME;
    var d, k := (y - x) % SPAN, (y - x) / SPAN;
    assert y == x + d + k * SPAN;
    if 0 < d && d != WORD32 {
      var low := MaskVaries(x, d);
      assert SameMaskAt(g, h, low);
      ModShift(x + Carry(low) + d, k, SPAN);
      ModShift(x + d, k, SPAN);
    }
    assert d == 0 || d == WORD32;
    var j := 2 * k + d / WORD32;
    assert g * FNV_PRIME == h * FNV_PRIME + j * WORD32;
    UndoPrimeLow(g, h, j);
  }

  lemma UndoPrimeLow(g: int, h: int, j: int)
    requires g * FNV_PRIME == h * FNV_PRIME + j * WORD32
    ensures Cong(g, h, WORD32)
  {
    var k := FNV_PRIME * FNV_INVERSE / WORD32;
    assert FNV_PRIME * FNV_INVERSE == k * WORD32 + 1;
    assert g * FNV_PRIME * FNV_INVERSE == g + g * k * WORD32;
    assert (h * FNV_PRIME + j * WORD32) * FNV_INVERSE == h + h * k * WORD32 + j * FNV_INVERSE * WORD32;
    assert g == h + (h * k + j * FNV_INVERSE - g * k) * WORD32;
  }
}
