/** Machine words as bounded naturals, with the wrap-around of the C source written out. */
module Words {

  const WORD32: nat := 0x1_0000_0000
  const WORD64: nat := 0x1_0000_0000_0000_0000
  const INT_MAX: int := 0x7fff_ffff

  type Byte = b: nat | b < 0x100
  type Word = w: nat | w < WORD32
  type DWord = d: nat | d < WORD64

  /** Bitwise exclusive or. */
  function Xor(a: nat, b: nat): nat
    decreases a + b
  {
    if a == 0 && b == 0 then 0 else 2 * Xor(a / 2, b / 2) + (a + b) % 2
  }

  /** Division of C: the quotient is truncated toward zero. */
  function Truncated(a: int, d: int): int
    requires d > 0
  {
    if a < 0 then -(-a / d) else a / d
  }

  ghost function Pow2(n: nat): (p: nat)
    ensures p > 0
  {
    if n == 0 then 1 else 2 * Pow2(n - 1)
  }

  lemma {:induction false} XorBelowPow2(a: nat, b: nat, n: nat)
    requires a < Pow2(n) && b < Pow2(n)
    ensures Xor(a, b) < Pow2(n)
  {
    if n == 0 {
    } else if a == 0 && b == 0 {
    } else {
      XorBelowPow2(a / 2, b / 2, n - 1);
    }
  }

  lemma XorFits(a: DWord, b: DWord)
    ensures Xor(a, b) < WORD64
  {
    Pow2Values();
    XorBelowPow2(a, b, 64);
  }

  lemma XorUnfold(a: nat, b: nat)
    ensures Xor(a, b) / 2 == Xor(a / 2, b / 2)
    ensures Xor(a, b) == 2 * Xor(a / 2, b / 2) + (a + b) % 2
  {
  }

  lemma ParityCancels(a: nat, b: nat, h: nat)
    ensures 2 * (a / 2) + (2 * h + (a + b) % 2 + b) % 2 == a
  {
  }

  lemma {:induction false} XorCancel(a: nat, b: nat)
    ensures Xor(Xor(a, b), b) == a
    decreases a + b
  {
    if a == 0 && b == 0 {
    } else {
      XorCancel(a / 2, b / 2);
      XorUnfold(a, b);
      XorUnfold(Xor(a, b), b);
      ParityCancels(a, b, Xor(a / 2, b / 2));
    }
  }

  lemma {:induction false} XorCommutes(a: nat, b: nat)
    ensures Xor(a, b) == Xor(b, a)
    decreases a + b
  {
    if a == 0 && b == 0 {
    } else {
      XorCommutes(a / 2, b / 2);
    }
  }

  lemma EightHalves(a: nat)
    ensures a / 2 / 2 / 2 / 2 / 2 / 2 / 2 / 2 == a / 0x100
  {
  }

  /** Dropping the low byte commutes with exclusive or. */
  lemma XorHigh(a: nat, b: nat)
    ensures Xor(a, b) / 0x100 == Xor(a / 0x100, b / 0x100)
  {
    XorUnfold(a, b);
    XorUnfold(a / 2, b / 2);
    XorUnfold(a / 2 / 2, b / 2 / 2);
    XorUnfold(a / 2 / 2 / 2, b / 2 / 2 / 2);
    XorUnfold(a / 2 / 2 / 2 / 2, b / 2 / 2 / 2 / 2);
    XorUnfold(a / 2 / 2 / 2 / 2 / 2, b / 2 / 2 / 2 / 2 / 2);
    XorUnfold(a / 2 / 2 / 2 / 2 / 2 / 2, b / 2 / 2 / 2 / 2 / 2 / 2);
    XorUnfold(a / 2 / 2 / 2 / 2 / 2 / 2 / 2, b / 2 / 2 / 2 / 2 / 2 / 2 / 2);
    EightHalves(a);
    EightHalves(b);
    EightHalves(Xor(a, b));
  }

  lemma {:induction false} Pow2Add(m: nat, n: nat)
    ensures Pow2(m + n) == Pow2(m) * Pow2(n)
  {
    if m == 0 {
    } else {
      Pow2Add(m - 1, n);
    }
  }

  lemma {:induction false} PowMonotone(j: nat, k: nat)
    requires j <= k
    ensures Pow2(j) <= Pow2(k)
  {
    if j < k {
      PowMonotone(j, k - 1);
    }
  }

  lemma Pow2Values()
    ensures Pow2(64) == WORD64
  {
    assert Pow2(8) == 0x100;
    Pow2Add(8, 8);
    Pow2Add(16, 16);
    Pow2Add(32, 32);
  }

  lemma HalfDigits(a: nat, p: nat)
    requires p > 0
    ensures a / (2 * p) == a / 2 / p
  {
    var q, r := a / 2 / p, a / 2 % p;
    assert a / 2 == q * p + r;
    assert a == q * (2 * p) + (2 * r + a % 2);
    QuotientIs(a, 2 * p, q, 2 * r + a % 2);
  }

  /** Bit k of a number. */
  ghost function BitAt(a: nat, k: nat): nat {
    a / Pow2(k) % 2
  }

  lemma BitOfHalf(a: nat, k: nat)
    requires k > 0
    ensures BitAt(a, k) == BitAt(a / 2, k - 1)
  {
    HalfDigits(a, Pow2(k - 1));
  }

  /** Exclusive or, bit by bit: it is set where exactly one of the two is. */
  lemma {:induction false} XorBitAt(a: nat, b: nat, k: nat)
    ensures BitAt(Xor(a, b), k) == (BitAt(a, k) + BitAt(b, k)) % 2
    decreases k
  {
    XorUnfold(a, b);
    hide Xor;
    if k == 0 {
      assert Pow2(0) == 1;
      LowBits(a, b, Xor(a / 2, b / 2));
    } else {
      hide BitAt;
      XorBitAt(a / 2, b / 2, k - 1);
      BitOfHalf(a, k);
      BitOfHalf(b, k);
      BitOfHalf(Xor(a, b), k);
    }
  }

  lemma LowBits(a: nat, b: nat, h: nat)
    ensures (2 * h + (a + b) % 2) / 1 % 2 == (a / 1 % 2 + b / 1 % 2) % 2
  {
  }

  lemma MultipleExceeds(k: int, d: int)
    requires k >= 1 && d > 0
    ensures k * d >= d
  {
  }

  lemma CancelFactor(g: nat, a: int, b: int)
    requires g > 0 && g * a == g * b
    ensures a == b
  {
    if a > b {
      MultipleExceeds(a - b, g);
    } else if a < b {
      MultipleExceeds(b - a, g);
    }
  }

  lemma QuotientUnique(d: int, q: int, r: int, q': int, r': int)
    requires d > 0 && 0 <= r < d && 0 <= r' < d
    requires q * d + r == q' * d + r'
    ensures q == q' && r == r'
  {
    if q > q' {
      MultipleExceeds(q - q', d);
    } else if q < q' {
      MultipleExceeds(q' - q, d);
    }
  }

  lemma QuotientIs(a: int, d: int, q: int, r: int)
    requires d > 0 && 0 <= r < d && a == q * d + r
    ensures a / d == q && a % d == r
  {
    QuotientUnique(d, q, r, a / d, a % d);
  }

  lemma QuotientBelow(a: int, m: int, k: int)
    requires 0 <= a < m * k && m > 0
    ensures a / m < k
  {
  }

  lemma ModShift(a: int, k: int, m: int)
    requires m > 0
    ensures (a + k * m) % m == a % m
  {
    QuotientIs(a + k * m, m, a / m + k, a % m);
  }

  lemma ModAddLeft(a: int, b: int, m: int)
    requires m > 0
    ensures (a % m + b) % m == (a + b) % m
  {
    ModShift(a % m + b, a / m, m);
  }

  lemma ModMulLeft(a: int, b: int, m: int)
    requires m > 0
    ensures (a % m * b) % m == (a * b) % m
  {
    assert a * b == a % m * b + a / m * b * m by {
      assert a == a % m + a / m * m;
    }
    ModShift(a % m * b, a / m * b, m);
  }
}
