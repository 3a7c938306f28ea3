/** Exact decimals in canonical form: no trailing zero after the point. Zero carries a sign,
    as it does in decimal.js; only formatting shows it. */
module Decimals {
  import opened Digits

  datatype Decimal = Decimal(neg: bool, mag: nat, scale: nat)

  predicate Canonical(d: Decimal) {
    d.scale == 0 || d.mag % 10 != 0
  }

  /** The canonical decimal for `mag / 10^scale`. */
  function Make(neg: bool, mag: nat, scale: nat): (d: Decimal)
    ensures Canonical(d) && d.neg == neg && d.scale <= scale
    ensures mag == d.mag * Pow10(scale - d.scale)
    decreases scale
  {
    if scale > 0 && mag % 10 == 0 then
      var d := Make(neg, mag / 10, scale - 1);
      assert mag == (mag / 10) * 10 && d.mag * (10 * Pow10(scale - 1 - d.scale)) == d.mag * Pow10(scale - 1 - d.scale) * 10;
      d
    else Decimal(neg, mag, scale)
  }

  /** The signed coefficient. */
  function Coef(d: Decimal): int {
    if d.neg then 0 - d.mag else d.mag
  }

  /** The value in units of `10^-k`. */
  function At(d: Decimal, k: nat): int
    requires d.scale <= k
  {
    Coef(d) * Pow10(k - d.scale)
  }

  function Max(a: nat, b: nat): nat {
    if a < b then b else a
  }

  function Compare(a: Decimal, b: Decimal): int {
    var k := Max(a.scale, b.scale);
    At(a, k) - At(b, k)
  }

  /** Numeric equality; the two zeros are equal. */
  predicate Equals(a: Decimal, b: Decimal) {
    Compare(a, b) == 0
  }

  predicate IsZero(d: Decimal) { d.mag == 0 }

  predicate IsPositive(d: Decimal) { !d.neg && d.mag > 0 }

  predicate IsNegative(d: Decimal) { d.neg && d.mag > 0 }

  // ----- One canonical form per value -----

  lemma TimesPow10(x: int, j: nat, k: nat)
    ensures x * Pow10(j) * Pow10(k) == x * Pow10(j + k)
  {
    Pow10Add(j, k);
    var p, q := Pow10(j), Pow10(k);
    assert x * p * q == x * (p * q);
  }

  lemma AtRescale(d: Decimal, j: nat, k: nat)
    requires d.scale <= j <= k
    ensures At(d, k) == At(d, j) * Pow10(k - j)
  {
    TimesPow10(Coef(d), j - d.scale, k - j);
  }

  lemma MulPositive(x: int, y: int)
    requires x > 0 && y > 0
    ensures x * y > 0
  {
  }

  lemma CancelFactor(x: int, y: int, p: int)
    requires p > 0 && x * p == y * p
    ensures x == y
  {
    assert (x - y) * p == 0 && (y - x) * p == 0;
    if x > y { MulPositive(x - y, p); }
    if y > x { MulPositive(y - x, p); }
  }

  /** Comparing at any common scale gives the same answer. */
  lemma EqualsAt(a: Decimal, b: Decimal, k: nat)
    requires a.scale <= k && b.scale <= k
    ensures Equals(a, b) <==> At(a, k) == At(b, k)
  {
    var j := Max(a.scale, b.scale);
    AtRescale(a, j, k);
    AtRescale(b, j, k);
    if At(a, k) == At(b, k) {
      CancelFactor(At(a, j), At(b, j), Pow10(k - j));
    }
  }

  lemma TenDivides(m: int, k: nat)
    requires k > 0
    ensures (m * Pow10(k)) % 10 == 0
  {
    var p := Pow10(k - 1);
    assert m * (10 * p) == (m * p) * 10;
  }

  lemma CanonicalScale(a: Decimal, b: Decimal)
    requires Canonical(a) && Canonical(b) && Equals(a, b)
    ensures a.scale <= b.scale
  {
    if b.scale < a.scale {
      var p := Pow10(a.scale - b.scale);
      assert At(a, a.scale) == Coef(a) * Pow10(0) == Coef(a);
      assert Coef(a) == Coef(b) * p;
      TenDivides(Coef(b), a.scale - b.scale);
      NegDivides(a);
    }
  }

  lemma NegDivides(d: Decimal)
    requires Coef(d) % 10 == 0
    ensures d.mag % 10 == 0
  {
  }

  /** Equal values have equal coefficients and scales. */
  lemma CanonicalUnique(a: Decimal, b: Decimal)
    requires Canonical(a) && Canonical(b)
    ensures Equals(a, b) <==> Coef(a) == Coef(b) && a.scale == b.scale
  {
    if Equals(a, b) {
      CanonicalScale(a, b);
      CanonicalScale(b, a);
    }
    assert At(a, a.scale) == Coef(a) * Pow10(0) == Coef(a);
    assert At(b, b.scale) == Coef(b) * Pow10(0) == Coef(b);
  }

  lemma NegTimes(x: int, p: int)
    ensures (0 - x) * p == 0 - x * p
  {
  }

  lemma MakeAt(neg: bool, mag: nat, scale: nat)
    ensures At(Make(neg, mag, scale), scale) == if neg then 0 - mag else mag
  {
    var d := Make(neg, mag, scale);
    NegTimes(d.mag, Pow10(scale - d.scale));
  }

  lemma {:induction false} MakeCanonical(d: Decimal)
    requires Canonical(d)
    ensures Make(d.neg, d.mag, d.scale) == d
  {
  }

  // ----- Half-even rounding of a quotient -----

  function HalfEven(n: nat, m: nat): nat
    requires m > 0
  {
    var q, r := n / m, n % m;
    if 2 * r < m || (2 * r == m && q % 2 == 0) then q else q + 1
  }

  /** `q` is a nearest integer to `n / m`, and the even one of two. */
  predicate Nearest(n: int, m: nat, q: int) {
    var twice := 2 * (n - m * q);
    0 - m <= twice <= m && (twice == m || twice == 0 - m ==> q % 2 == 0)
  }

  lemma HalfEvenNearest(n: nat, m: nat)
    requires m > 0
    ensures Nearest(n, m, HalfEven(n, m))
  {
    var q, r := n / m, n % m;
    assert n == m * q + r;
    assert m * (q + 1) == m * q + m;
  }

  /** Rounding preserves order; in particular there is only one nearest integer. */
  lemma NearestMonotone(n: int, n': int, m: nat, q: int, q': int)
    requires m > 0 && Nearest(n, m, q) && Nearest(n', m, q') && n <= n'
    ensures q <= q'
  {
    var d := q - q';
    assert m * d == m * q - m * q';
    if d >= 2 {
      MulMonotone(2, d, m);
    }
  }

  /** Scaling both sides does not change the quotient's rounding. */
  lemma HalfEvenScale(n: nat, m: nat, c: nat)
    requires m > 0 && c > 0
    ensures m * c > 0 && HalfEven(n * c, m * c) == HalfEven(n, m)
  {
    MulPositive(m, c);
    HalfEvenNearest(n * c, m * c);
    HalfEvenNearest(n, m);
    NearestScale(n, m, HalfEven(n, m), c);
    NearestMonotone(n * c, n * c, m * c, HalfEven(n * c, m * c), HalfEven(n, m));
    NearestMonotone(n * c, n * c, m * c, HalfEven(n, m), HalfEven(n * c, m * c));
  }

  lemma NearestScale(n: int, m: nat, q: int, c: nat)
    requires m > 0 && c > 0 && Nearest(n, m, q)
    ensures Nearest(n * c, m * c, q)
  {
    var e := 2 * (n - m * q);
    assert 2 * (n * c - m * c * q) == e * c;
    MulMonotone(0 - m, e, c);
    MulMonotone(e, m, c);
    NegTimes(m, c);
    if e * c == m * c { CancelFactor(e, m, c); }
    if e * c == 0 - m * c { CancelFactor(e, 0 - m, c); }
  }

  lemma MulMonotone(x: int, y: int, c: nat)
    requires x <= y
    ensures x * c <= y * c
  {
    assert (y - x) * c == y * c - x * c;
    if y > x && c > 0 { MulPositive(y - x, c); }
  }

  lemma NearestOnly(n: int, m: nat, p: int, q: int)
    requires m > 0 && Nearest(n, m, p) && Nearest(n, m, q)
    ensures p == q
  {
    NearestMonotone(n, n, m, p, q);
    NearestMonotone(n, n, m, q, p);
  }

  lemma FactorProduct(x: int, y: int, p: int, q: int)
    ensures (x * y) * (p * q) == (x * p) * (y * q)
  {
    calc {
      (x * y) * (p * q);
      x * (y * p) * q;
      x * (p * y) * q;
      (x * p) * (y * q);
    }
  }
}
