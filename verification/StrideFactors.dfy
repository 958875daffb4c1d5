/**
 * The probe stride has no divisor from 2 to 4096: modulo any divisor, a number of order 11509 has at
 * least 4097 different powers.
 */
module StrideFactors {
  import opened Words

  const PROBE_STRIDE: nat := 2654435761

  /** A number of order 17 * 677 modulo the stride. */
  const GENERATOR: nat := 2139682203

  // ---------------------------------------------------------------------------------------------
  // Greatest common divisors

  datatype Bezout = Bezout(g: nat, x: int, y: int)

  /** Extended Euclid: g divides both arguments and is a combination of them. */
  function ExtendedGcd(a: nat, b: nat): (r: Bezout)
    requires a > 0 || b > 0
    ensures r.g > 0 && a % r.g == 0 && b % r.g == 0
    ensures r.g == a * r.x + b * r.y
    decreases b
  {
    if b == 0 then Bezout(a, 1, 0)
    else
      var s := ExtendedGcd(b, a % b);
      EuclidStep(a, b, s.g, s.x, s.y);
      Bezout(s.g, s.y, s.x - a / b * s.y)
  }

  lemma EuclidStep(a: nat, b: nat, g: nat, x: int, y: int)
    requires b > 0 && g > 0 && b % g == 0 && a % b % g == 0
    requires g == b * x + a % b * y
    ensures a % g == 0
    ensures g == a * y + b * (x - a / b * y)
  {
    var q, r := a / b, a % b;
    assert a == q * b + r;
    var k, l := b / g, r / g;
    assert b == k * g && r == l * g;
    assert a == (q * k + l) * g;
    QuotientIs(a, g, q * k + l, 0);
    assert a * y == q * b * y + r * y;
    assert b * (q * y) == q * b * y;
  }

  // ---------------------------------------------------------------------------------------------
  // Powers modulo a number, by their sum rule

  ghost predicate Exponential(f: nat -> nat, d: nat) {
    d > 1 && f(0) == 1 && forall m: nat, n: nat :: SumRule(f, d, m, n)
  }

  predicate SumRule(f: nat -> nat, d: nat, m: nat, n: nat) {
    d > 0 && f(m + n) == f(m) * f(n) % d
  }

  lemma Same(f: nat -> nat, d: nat, m: nat, n: nat)
    requires Exponential(f, d) && f(m) == 1
    ensures f(m + n) == f(n)
  {
    assert SumRule(f, d, m, n);
    assert SumRule(f, d, 0, n);
    assert 0 + n == n;
  }

  lemma {:induction false} OneMultiple(f: nat -> nat, d: nat, m: nat, k: nat)
    requires Exponential(f, d) && f(m) == 1
    ensures f(k * m) == 1
  {
    if k == 0 {
      assert k * m == 0;
    } else {
      OneMultiple(f, d, m, k - 1);
      Same(f, d, m, (k - 1) * m);
      assert k * m == m + (k - 1) * m;
    }
  }

  lemma {:induction false} OneGcd(f: nat -> nat, d: nat, m: nat, n: nat)
    requires Exponential(f, d) && (m > 0 || n > 0) && f(m) == 1 && f(n) == 1
    ensures f(ExtendedGcd(m, n).g) == 1
    decreases n
  {
    if n > 0 {
      OneMultiple(f, d, n, m / n);
      Same(f, d, m / n * n, m % n);
      assert m == m / n * n + m % n;
      OneGcd(f, d, n, m % n);
    }
  }

  /** Values that agree are a value of one apart. */
  lemma Difference(f: nat -> nat, d: nat, i: nat, m: nat, r: nat)
    requires Exponential(f, d) && f(i) == f(i + m) && f(r + i) == 1
    ensures f(m) == 1
  {
    assert SumRule(f, d, r, i);
    assert SumRule(f, d, r, i + m);
    assert r + (i + m) == r + i + m;
    Same(f, d, r + i, m);
  }

  /** The common divisor of q * m and q * p is q times a divisor of m and p. */
  lemma CommonFactor(q: nat, m: nat, p: nat) returns (e: nat, f: nat, k: nat)
    requires q > 0 && m > 0 && p > 0
    ensures ExtendedGcd(q * m, q * p).g == q * e && p == e * f && m == e * k
  {
    hide ExtendedGcd;
    var r := ExtendedGcd(q * m, q * p);
    var s := m * r.x + p * r.y;
    assert r.g == q * s by {
      assert q * m * r.x == q * (m * r.x) && q * p * r.y == q * (p * r.y);
    }
    if s <= 0 {
      MultipleExceeds(1 - s, q);
    }
    e, f, k := s, q * p / r.g, q * m / r.g;
    assert q * p == f * (q * e) && q * m == k * (q * e);
    CancelThrough(q, p, e, f);
    CancelThrough(q, m, e, k);
  }

  lemma CancelThrough(q: nat, p: nat, e: nat, f: nat)
    requires q > 0 && q * p == f * (q * e)
    ensures p == e * f
  {
    assert f * (q * e) == q * (e * f);
    CancelFactor(q, p, e * f);
  }

  ghost predicate Prime(p: nat) {
    p > 1 && forall e: nat, f: nat :: e * f == p ==> e == 1 || e == p
  }

  /** If the values at q * p and m are one, but not that at q, then the prime p divides m. */
  lemma PrimeDividesExponent(f: nat -> nat, d: nat, m: nat, p: nat, q: nat)
    requires Exponential(f, d) && m > 0 && q > 0 && Prime(p) && f(q * p) == 1 && f(m) == 1 && f(q) != 1
    ensures m % p == 0
  {
    hide ExtendedGcd, Exponential;
    OneMultiple(f, d, m, q);
    OneGcd(f, d, q * m, q * p);
    var e, g, k := CommonFactor(q, m, p);
    assert e == 1 || e == p;
    if e == p {
      QuotientIs(m, p, k, 0);
    }
  }

  // ---------------------------------------------------------------------------------------------
  // Two of the first values agree

  function Values(f: nat -> nat, n: nat): set<nat> {
    set i: nat | i < n :: f(i)
  }

  ghost function Below(d: nat): (s: set<nat>)
    ensures |s| == d && forall p: nat :: p in s <==> p < d
  {
    if d == 0 then {} else Below(d - 1) + {d - 1}
  }

  lemma {:induction false} DistinctValues(f: nat -> nat, n: nat)
    requires forall i: nat, j: nat :: i < j < n ==> f(i) != f(j)
    ensures |Values(f, n)| == n
  {
    if n == 0 {
      assert Values(f, 0) == {};
    } else {
      DistinctValues(f, n - 1);
      assert Values(f, n) == Values(f, n - 1) + {f(n - 1)};
    }
  }

  lemma FewValues(f: nat -> nat, d: nat, n: nat)
    requires forall i: nat :: f(i) < d
    ensures |Values(f, n)| <= d
  {
    assert Below(d) == Values(f, n) + (Below(d) - Values(f, n));
  }

  lemma Collision(f: nat -> nat, d: nat, n: nat) returns (i: nat, j: nat)
    requires d < n && forall k: nat :: f(k) < d
    ensures i < j < n && f(i) == f(j)
  {
    FewValues(f, d, n);
    if forall k: nat, l: nat :: k < l < n ==> f(k) != f(l) {
      DistinctValues(f, n);
    }
    i, j :| i < j < n && f(i) == f(j);
  }

  // ---------------------------------------------------------------------------------------------
  // The generator

  lemma Doubled(f: nat -> nat, n: nat, c: nat, d: nat)
    requires Exponential(f, PROBE_STRIDE) && f(n) == c && c * c % PROBE_STRIDE == d
    ensures f(2 * n) == d
  {
    assert SumRule(f, PROBE_STRIDE, n, n);
    assert n + n == 2 * n;
  }

  lemma OneMore(f: nat -> nat, n: nat, c: nat, d: nat)
    requires Exponential(f, PROBE_STRIDE) && f(1) == GENERATOR && f(n) == c && c * GENERATOR % PROBE_STRIDE == d
    ensures f(n + 1) == d
  {
    assert SumRule(f, PROBE_STRIDE, n, 1);
  }

  lemma Power17(f: nat -> nat)
    requires Exponential(f, PROBE_STRIDE) && f(1) == GENERATOR
    ensures f(17) == 345145418
  {
    Doubled(f, 1, 2139682203, 908457792);
    Doubled(f, 2, 908457792, 142489804);
    Doubled(f, 4, 142489804, 435534220);
    Doubled(f, 8, 435534220, 96619504);
    OneMore(f, 16, 96619504, 345145418);
  }

  lemma Power677(f: nat -> nat)
    requires Exponential(f, PROBE_STRIDE) && f(1) == GENERATOR
    ensures f(677) == 1421102257
  {
    Doubled(f, 1, 2139682203, 908457792);
    Doubled(f, 2, 908457792, 142489804);
    OneMore(f, 4, 142489804, 1769882400);
    Doubled(f, 5, 1769882400, 197097522);
    Doubled(f, 10, 197097522, 2061088213);
    OneMore(f, 20, 2061088213, 94782546);
    Doubled(f, 21, 94782546, 239126974);
    Doubled(f, 42, 239126974, 524901531);
    Doubled(f, 84, 524901531, 635506242);
    OneMore(f, 168, 635506242, 1732139702);
    Doubled(f, 169, 1732139702, 262641343);
    Doubled(f, 338, 262641343, 662821340);
    OneMore(f, 676, 662821340, 1421102257);
  }

  lemma Power11509(f: nat -> nat)
    requires Exponential(f, PROBE_STRIDE) && f(1) == GENERATOR
    ensures f(11509) == 1
  {
    Doubled(f, 1, 2139682203, 908457792);
    Doubled(f, 2, 908457792, 142489804);
    OneMore(f, 4, 142489804, 1769882400);
    Doubled(f, 5, 1769882400, 197097522);
    OneMore(f, 10, 197097522, 1092802035);
    Doubled(f, 11, 1092802035, 1978143996);
    Doubled(f, 22, 1978143996, 1706709780);
    Doubled(f, 44, 1706709780, 923001991);
    OneMore(f, 88, 923001991, 2198332598);
    Doubled(f, 89, 2198332598, 426571429);
    OneMore(f, 178, 426571429, 1810500174);
    Doubled(f, 179, 1810500174, 2579978367);
    OneMore(f, 358, 2579978367, 1647203644);
    Doubled(f, 359, 1647203644, 2388828209);
    OneMore(f, 718, 2388828209, 898735822);
    Doubled(f, 719, 898735822, 63573778);
    Doubled(f, 1438, 63573778, 2594980772);
    OneMore(f, 2876, 2594980772, 2291066671);
    Doubled(f, 2877, 2291066671, 640927723);
    Doubled(f, 5754, 640927723, 1163468260);
    OneMore(f, 11508, 1163468260, 1);
  }

  function Power(b: nat, n: nat): nat {
    if n == 0 then 1 else Power(b, n - 1) * b
  }

  lemma {:induction false} PowerAdd(b: nat, m: nat, n: nat)
    ensures Power(b, m + n) == Power(b, m) * Power(b, n)
  {
    if n > 0 {
      PowerAdd(b, m, n - 1);
      assert Power(b, m) * Power(b, n - 1) * b == Power(b, m) * Power(b, n);
    }
  }

  lemma ModMulRight(a: nat, b: nat, d: nat)
    requires d > 0
    ensures b * (a % d) % d == b * a % d
  {
    ModMulLeft(a, b, d);
    assert a % d * b == b * (a % d) && a * b == b * a;
  }

  lemma ModProduct(x: nat, y: nat, d: nat)
    requires d > 0
    ensures x * y % d == (x % d) * (y % d) % d
  {
    ModMulLeft(x, y, d);
    ModMulRight(y, x % d, d);
  }

  /** The powers of the generator, modulo a divisor of the stride. */
  lemma PowersExponential(b: nat, d: nat)
    requires d > 1
    ensures Exponential((n: nat) => Power(b, n) % d, d)
  {
    var f := (n: nat) => Power(b, n) % d;
    forall m: nat, n: nat
      ensures SumRule(f, d, m, n)
    {
      PowerAdd(b, m, n);
      ModProduct(Power(b, m), Power(b, n), d);
    }
  }

  lemma ModOfDivisor(a: nat, d: nat)
    requires d > 0 && PROBE_STRIDE % d == 0
    ensures a % PROBE_STRIDE % d == a % d
  {
    var q := PROBE_STRIDE / d;
    assert PROBE_STRIDE == q * d;
    assert a == a % PROBE_STRIDE + a / PROBE_STRIDE * q * d;
    ModShift(a % PROBE_STRIDE, a / PROBE_STRIDE * q, d);
  }

  lemma UnitFactor(d: nat, k: int)
    requires d > 1
    ensures d * k != 1
  {
    if k >= 1 {
      MultipleExceeds(k, d);
    }
  }

  lemma Collected(c: int, e: int, d: int, p: int, q: int, x: int, y: int)
    requires c == d * p && e == d * q
    ensures c * x + e * y == d * (p * x + q * y)
  {
    assert d * p * x == d * (p * x) && d * q * y == d * (q * y);
  }

  lemma Multiple(c: nat, d: nat)
    requires d > 0 && c % d == 0
    ensures c == d * (c / d)
  {
  }

  /** What is prime to the stride is not zero modulo a divisor. */
  lemma NotZero(c: nat, e: nat, x: int, y: int, d: nat)
    requires c * x + e * y == 1 && d > 1 && e % d == 0
    ensures (c + 1) % d != 1
  {
    if (c + 1) % d == 1 {
      ModAddLeft(c + 1, -1, d);
      Multiple(c, d);
      Multiple(e, d);
      Collected(c, e, d, c / d, e / d, x, y);
      UnitFactor(d, c / d * x + e / d * y);
    }
  }

  lemma BothLarge(e: nat, f: nat, n: nat)
    requires e >= n && f >= n
    ensures e * f >= n * n
  {
    assert (e - n) * f >= 0 && n * (f - n) >= 0;
  }

  lemma NoSmallFactor(e: nat, f: nat)
    requires 2 <= e <= 26
    ensures e * f != 677 && (e <= 4 ==> e * f != 17)
  {
    assert e == 2 || e == 3 || e == 4 || e == 5 || e == 6 || e == 7 || e == 8 || e == 9 || e == 10 || e == 11
        || e == 12 || e == 13 || e == 14 || e == 15 || e == 16 || e == 17 || e == 18 || e == 19 || e == 20
        || e == 21 || e == 22 || e == 23 || e == 24 || e == 25 || e == 26;
  }

  /** A number is prime if no factor up to a bound n is found, where n * n exceeds it. */
  lemma PrimeByTrial(p: nat, n: nat)
    requires 1 < p < n * n && forall e: nat, f: nat :: 2 <= e < n ==> e * f != p
    ensures Prime(p)
  {
    forall e: nat, f: nat | e * f == p
      ensures e == 1 || e == p
    {
      assert f * e == p;
      if e >= n && f >= n {
        BothLarge(e, f, n);
      }
    }
  }

  lemma SmallPrimes()
    ensures Prime(17) && Prime(677)
  {
    forall e: nat, f: nat | 2 <= e < 27
      ensures e * f != 677 && (e < 5 ==> e * f != 17)
    {
      NoSmallFactor(e, f);
    }
    PrimeByTrial(677, 27);
    PrimeByTrial(17, 5);
  }

  lemma OrderModStride(b: nat)
    requires b == GENERATOR
    ensures Power(b, 17) % PROBE_STRIDE == 345145418 && Power(b, 677) % PROBE_STRIDE == 1421102257
    ensures Power(b, 11509) % PROBE_STRIDE == 1
  {
    var f := (n: nat) => Power(b, n) % PROBE_STRIDE;
    PowersExponential(b, PROBE_STRIDE);
    assert f(1) == b;
    Power17(f);
    Power677(f);
    Power11509(f);
  }

  lemma NotOneModDivisor(a: nat, c: nat, x: int, y: int, d: nat)
    requires a % PROBE_STRIDE == c + 1 && c * x + PROBE_STRIDE * y == 1 && d > 1 && PROBE_STRIDE % d == 0
    ensures a % d != 1
  {
    ModOfDivisor(a, d);
    NotZero(c, PROBE_STRIDE, x, y, d);
  }

  lemma OneModDivisor(a: nat, d: nat)
    requires a % PROBE_STRIDE == 1 && d > 1 && PROBE_STRIDE % d == 0
    ensures a % d == 1
  {
    ModOfDivisor(a, d);
    QuotientIs(1, d, 0, 1);
  }

  /** Modulo a divisor of the stride the generator still has order 17 * 677. */
  lemma OrderModDivisor(b: nat, d: nat)
    requires b == GENERATOR && d > 1 && PROBE_STRIDE % d == 0
    ensures Power(b, 11509) % d == 1 && Power(b, 17) % d != 1 && Power(b, 677) % d != 1
  {
    OrderModStride(b);
    OneModDivisor(Power(b, 11509), d);
    NotOneModDivisor(Power(b, 17), 345145417, -1159125467, 150716340, d);
    NotOneModDivisor(Power(b, 677), 1421102256, -344574871, 184474657, d);
  }

  /** Some exponent up to 4096 gives one modulo d, whatever the base, if a larger one does. */
  lemma EarlyOne(b: nat, d: nat) returns (m: nat)
    requires 1 < d <= 4096 && Power(b, 11509) % d == 1
    ensures 0 < m <= 4096 && Power(b, m) % d == 1
  {
    var f := (n: nat) => Power(b, n) % d;
    PowersExponential(b, d);
    var i, j := Collision(f, d, 4097);
    m := j - i;
    assert f(i) == f(i + m);
    assert f(11509 - i + i) == 1;
    Difference(f, d, i, m, 11509 - i);
  }

  lemma PrimeDivides(b: nat, d: nat, m: nat, p: nat, q: nat)
    requires d > 1 && m > 0 && q > 0 && Prime(p)
    requires Power(b, q * p) % d == 1 && Power(b, m) % d == 1 && Power(b, q) % d != 1
    ensures m % p == 0
  {
    var f := (n: nat) => Power(b, n) % d;
    PowersExponential(b, d);
    assert f(q * p) == 1 && f(m) == 1 && f(q) != 1;
    PrimeDividesExponent(f, d, m, p, q);
  }

  lemma NoCommonMultiple(m: nat)
    requires 0 < m <= 4096 && m % 677 == 0
    ensures m % 17 != 0
  {
    var k := m / 677;
    assert k == 1 || k == 2 || k == 3 || k == 4 || k == 5 || k == 6;
  }

  lemma NoDivisor(b: nat, d: nat)
    requires b == GENERATOR && 2 <= d <= 4096
    ensures PROBE_STRIDE % d != 0
  {
    if PROBE_STRIDE % d == 0 {
      OrderModDivisor(b, d);
      var m := EarlyOne(b, d);
      SmallPrimes();
      PrimeDivides(b, d, m, 677, 17);
      PrimeDivides(b, d, m, 17, 677);
      NoCommonMultiple(m);
    }
  }

  /** The stride has no small divisor. */
  lemma NoSmallDivisor(d: nat)
    requires 2 <= d <= 4096
    ensures PROBE_STRIDE % d != 0
  {
    NoDivisor(GENERATOR, d);
  }
}
