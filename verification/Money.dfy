/** Money arithmetic: decimal.js at 40 significant digits with half-even rounding. */
module Money {
  import opened Digits
  import opened Decimals

  const PRECISION: nat := 40

  function Abs(c: int): nat {
    if c < 0 then 0 - c else c
  }

  /** The value rounded to 40 significant digits, half even. */
  function Significant(d: Decimal): (r: Decimal)
    ensures Canonical(d) ==> Canonical(r)
  {
    var n := |Print(d.mag)|;
    if n <= PRECISION then d
    else
      var p := Pow10(n - PRECISION);
      Make(d.neg, HalfEven(d.mag, p) * p, d.scale)
  }

  /** The decimal `c / 10^scale`, with the given sign if it is zero. */
  function FromCoef(zeroNeg: bool, c: int, scale: nat): Decimal {
    Make(if c == 0 then zeroNeg else c < 0, Abs(c), scale)
  }

  function Add(a: Decimal, b: Decimal): Decimal {
    var k := Max(a.scale, b.scale);
    Significant(FromCoef(a.neg && b.neg, At(a, k) + At(b, k), k))
  }

  function Neg(a: Decimal): Decimal {
    Decimal(!a.neg, a.mag, a.scale)
  }

  function Mul(a: Decimal, b: Decimal): Decimal {
    Significant(Make(a.neg != b.neg, a.mag * b.mag, a.scale + b.scale))
  }

  const HUNDRED: Decimal := Decimal(false, 100, 0)

  /** `div('100')` */
  function DivHundred(a: Decimal): Decimal {
    Significant(Make(a.neg, a.mag, a.scale + 2))
  }

  /** `toDecimalPlaces(k, ROUND_HALF_EVEN)` */
  function Round(d: Decimal, k: nat): (r: Decimal)
    ensures Canonical(d) ==> Canonical(r)
    ensures r.scale <= k
  {
    if d.scale <= k then d else Make(d.neg, HalfEven(d.mag, Pow10(d.scale - k)), k)
  }

  // ----- When 40 digits are enough -----

  lemma {:induction false} PrintLength(n: nat, k: nat)
    requires k > 0
    ensures |Print(n)| <= k <==> n < Pow10(k)
  {
    assert Pow10(1) == 10 * Pow10(0) == 10;
    if k > 1 {
      Pow10Positive(k - 1);
      if n >= 10 {
        PrintLength(n / 10, k - 1);
        assert Pow10(k) == 10 * Pow10(k - 1);
      }
    }
  }

  lemma Pow10Positive(k: nat)
    requires k > 0
    ensures Pow10(k) >= 10
  {
  }

  lemma ProductBound(x: nat, y: nat, p: nat, q: nat)
    requires x < p && y < q
    ensures x * y < p * q
  {
    MulMonotone(y, q, x);
    MulMonotone(x, p - 1, q);
    assert (p - 1) * q == p * q - q;
  }

  /** A smaller number has no more digits. */
  lemma PrintShorter(m: nat, n: nat, digits: nat)
    requires m <= n && |Print(n)| <= digits
    ensures |Print(m)| <= digits
  {
    PrintLength(m, digits);
    PrintLength(n, digits);
  }

  lemma MakeSmaller(neg: bool, mag: nat, scale: nat)
    ensures Make(neg, mag, scale).mag <= mag
  {
    var d := Make(neg, mag, scale);
    MulMonotone(1, Pow10(scale - d.scale), d.mag);
  }

  /** A value with at most 40 digits before canonicalization is not rounded. */
  lemma SignificantExact(neg: bool, mag: nat, scale: nat)
    requires |Print(mag)| <= PRECISION
    ensures Significant(Make(neg, mag, scale)) == Make(neg, mag, scale)
  {
    MakeSmaller(neg, mag, scale);
    PrintShorter(Make(neg, mag, scale).mag, mag, PRECISION);
  }

  /** Products are exact when the factors have at most 40 digits together. */
  lemma MulExact(a: Decimal, b: Decimal)
    requires |Print(a.mag)| + |Print(b.mag)| <= PRECISION
    ensures Mul(a, b) == Make(a.neg != b.neg, a.mag * b.mag, a.scale + b.scale)
    ensures Mul(a, b).scale <= a.scale + b.scale
    ensures At(Mul(a, b), a.scale + b.scale) == Coef(a) * Coef(b)
  {
    ProductDigits(a.mag, b.mag);
    SignificantExact(a.neg != b.neg, a.mag * b.mag, a.scale + b.scale);
    MakeAt(a.neg != b.neg, a.mag * b.mag, a.scale + b.scale);
    SignedProduct(a, b);
  }

  lemma ProductDigits(x: nat, y: nat)
    ensures |Print(x * y)| <= |Print(x)| + |Print(y)|
  {
    var j, k := |Print(x)|, |Print(y)|;
    PrintLength(x, j);
    PrintLength(y, k);
    ProductBound(x, y, Pow10(j), Pow10(k));
    Pow10Add(j, k);
    PrintLength(x * y, j + k);
  }

  lemma SignedProduct(a: Decimal, b: Decimal)
    ensures Coef(a) * Coef(b) == if a.neg != b.neg then 0 - a.mag * b.mag else a.mag * b.mag
  {
    var x, y: int := a.mag, b.mag;
    assert (0 - x) * y == 0 - x * y && x * (0 - y) == 0 - x * y && (0 - x) * (0 - y) == x * y;
  }

  /** Sums are exact when, at the larger scale, both terms have fewer than 40 digits. */
  lemma AddExact(a: Decimal, b: Decimal)
    requires var k := Max(a.scale, b.scale);
             |Print(Abs(At(a, k)))| < PRECISION && |Print(Abs(At(b, k)))| < PRECISION
    ensures var k := Max(a.scale, b.scale);
            Add(a, b).scale <= k && At(Add(a, b), k) == At(a, k) + At(b, k)
  {
    var k := Max(a.scale, b.scale);
    var c := At(a, k) + At(b, k);
    SumDigits(At(a, k), At(b, k), PRECISION - 1);
    FromCoefAt(a.neg && b.neg, c, k);
    SignificantExact(if c == 0 then a.neg && b.neg else c < 0, Abs(c), k);
  }

  lemma SumDigits(x: int, y: int, digits: nat)
    requires |Print(Abs(x))| <= digits && |Print(Abs(y))| <= digits
    ensures |Print(Abs(x + y))| <= digits + 1
  {
    PrintLength(Abs(x), digits);
    PrintLength(Abs(y), digits);
    PrintLength(Abs(x + y), digits + 1);
  }

  lemma AbsAt(d: Decimal, k: nat)
    requires d.scale <= k
    ensures Abs(At(d, k)) == d.mag * Pow10(k - d.scale)
  {
    NegTimes(d.mag, Pow10(k - d.scale));
    MulMonotone(0, d.mag, Pow10(k - d.scale));
  }

  /** The same at any scale both terms can be written at. */
  lemma AddAt(a: Decimal, b: Decimal, j: nat)
    requires a.scale <= j && b.scale <= j
    requires |Print(Abs(At(a, j)))| < PRECISION && |Print(Abs(At(b, j)))| < PRECISION
    ensures Add(a, b).scale <= j && At(Add(a, b), j) == At(a, j) + At(b, j)
  {
    var k := Max(a.scale, b.scale);
    AtShorter(a, k, j);
    AtShorter(b, k, j);
    AddExact(a, b);
    SumRescale(Add(a, b), a, b, k, j);
  }

  lemma SumRescale(c: Decimal, a: Decimal, b: Decimal, k: nat, j: nat)
    requires a.scale <= k && b.scale <= k && c.scale <= k <= j && At(c, k) == At(a, k) + At(b, k)
    ensures At(c, j) == At(a, j) + At(b, j)
  {
    AtRescale(c, k, j);
    AtRescale(a, k, j);
    AtRescale(b, k, j);
    Distribute(At(a, k), At(b, k), Pow10(j - k));
  }

  lemma Distribute(x: int, y: int, p: int)
    ensures (x + y) * p == x * p + y * p
  {
  }

  /** Written at a smaller scale, a value has no more digits. */
  lemma AtShorter(d: Decimal, k: nat, j: nat)
    requires d.scale <= k <= j && |Print(Abs(At(d, j)))| < PRECISION
    ensures |Print(Abs(At(d, k)))| < PRECISION
  {
    AtRescale(d, k, j);
    AbsProduct(At(d, k), Pow10(j - k));
    PrintShorter(Abs(At(d, k)), Abs(At(d, j)), PRECISION - 1);
  }

  lemma AbsProduct(x: int, p: nat)
    requires p >= 1
    ensures Abs(x * p) >= Abs(x)
  {
    MulMonotone(1, p, Abs(x));
    NegTimes(x, p);
  }

  lemma FromCoefAt(zeroNeg: bool, c: int, scale: nat)
    ensures At(FromCoef(zeroNeg, c, scale), scale) == c
  {
    MakeAt(if c == 0 then zeroNeg else c < 0, Abs(c), scale);
  }

  // ----- Rounding -----

  lemma NearestNeg(n: int, m: nat, q: int)
    requires Nearest(n, m, q)
    ensures Nearest(0 - n, m, 0 - q)
  {
    assert m * (0 - q) == 0 - m * q;
  }

  lemma RoundHere(d: Decimal, k: nat)
    requires k < d.scale
    ensures Nearest(Coef(d), Pow10(d.scale - k), At(Round(d, k), k))
  {
    var m := Pow10(d.scale - k);
    var q := HalfEven(d.mag, m);
    HalfEvenNearest(d.mag, m);
    MakeAt(d.neg, q, k);
    if d.neg {
      NearestNeg(d.mag, m, q);
    }
  }

  /** The rounded value is the nearest multiple of `10^-k`, the even one of two; whatever the
      scale `j` the value is written at. */
  lemma RoundNearest(d: Decimal, k: nat, j: nat)
    requires k <= j && d.scale <= j
    ensures Nearest(At(d, j), Pow10(j - k), At(Round(d, k), k))
  {
    if d.scale <= k {
      AtRescale(d, k, j);
      NearestExact(At(d, k), Pow10(j - k));
    } else {
      RoundHere(d, k);
      var m, c, q := Pow10(d.scale - k), Pow10(j - d.scale), At(Round(d, k), k);
      NearestScale(Coef(d), m, q, c);
      Pow10Add(d.scale - k, j - d.scale);
      assert Pow10(j - k) == m * c;
    }
  }

  lemma NearestExact(q: int, m: nat)
    requires m > 0
    ensures Nearest(q * m, m, q)
  {
    assert m * q == q * m;
  }

  /** Rounding is monotone. */
  lemma RoundMonotone(a: Decimal, b: Decimal, k: nat)
    requires Compare(a, b) <= 0
    ensures At(Round(a, k), k) <= At(Round(b, k), k)
  {
    var i := Max(a.scale, b.scale);
    var j := Max(i, k);
    AtRescale(a, i, j);
    AtRescale(b, i, j);
    MulMonotone(At(a, i), At(b, i), Pow10(j - i));
    RoundNearest(a, k, j);
    RoundNearest(b, k, j);
    NearestMonotone(At(a, j), At(b, j), Pow10(j - k), At(Round(a, k), k), At(Round(b, k), k));
  }

  /** Rounding twice is rounding once, and rounding commutes with negation. */
  lemma RoundIdempotentOdd(d: Decimal, k: nat)
    ensures Round(Round(d, k), k) == Round(d, k)
    ensures Round(Neg(d), k) == Neg(Round(d, k))
  {
    if d.scale > k {
      MakeNeg(d.neg, HalfEven(d.mag, Pow10(d.scale - k)), k);
    }
  }

  lemma {:induction false} MakeNeg(neg: bool, mag: nat, scale: nat)
    ensures Make(!neg, mag, scale) == Neg(Make(neg, mag, scale))
  {
    if scale > 0 && mag % 10 == 0 {
      MakeNeg(neg, mag / 10, scale - 1);
    }
  }
}
