/** Rounding to 40 significant digits keeps order, so that arithmetic on amounts that are not
    negative is monotone also where it is not exact. */
module Significance {
  import opened Digits
  import opened Decimals
  import opened Money

  /** A natural number rounded to 40 significant digits. */
  function SigInt(m: nat): nat {
    var n := |Print(m)|;
    if n <= PRECISION then m
    else
      var p := Pow10(n - PRECISION);
      HalfEven(m, p) * p
  }

  // ----- Digits of multiples of ten -----

  lemma PrintRange(m: nat)
    requires m > 0
    ensures var n := |Print(m)|; m < Pow10(n) && Pow10(n - 1) <= m
  {
    var n := |Print(m)|;
    PrintLength(m, n);
    if n > 1 { PrintLength(m, n - 1); }
  }

  lemma StrictTimes(x: int, y: int, p: nat)
    requires x < y && p > 0
    ensures x * p < y * p
  {
    MulPositive(y - x, p);
    assert (y - x) * p == y * p - x * p;
  }

  lemma TimesRange(m: nat, n: nat, k: nat)
    requires n > 0 && Pow10(n - 1) <= m < Pow10(n)
    ensures Pow10(n + k - 1) <= m * Pow10(k) < Pow10(n + k)
  {
    Pow10Add(n, k);
    Pow10Add(n - 1, k);
    StrictTimes(m, Pow10(n), Pow10(k));
    MulMonotone(Pow10(n - 1), m, Pow10(k));
  }

  lemma LengthFromRange(m: nat, n: nat)
    requires n > 0 && Pow10(n - 1) <= m < Pow10(n)
    ensures |Print(m)| == n
  {
    PrintLength(m, n);
    if n > 1 { PrintLength(m, n - 1); }
  }

  lemma PrintTimes(m: nat, k: nat)
    requires m > 0
    ensures |Print(m * Pow10(k))| == |Print(m)| + k
  {
    PrintRange(m);
    TimesRange(m, |Print(m)|, k);
    LengthFromRange(m * Pow10(k), |Print(m)| + k);
  }

  lemma HalfEvenExact(x: nat, p: nat)
    requires p > 0
    ensures x * p >= 0 && HalfEven(x * p, p) == x
  {
    MulMonotone(0, x, p);
    HalfEvenNearest(x * p, p);
    NearestExact(x, p);
    NearestOnly(x * p, p, HalfEven(x * p, p), x);
  }

  lemma SigNearest(m: nat, p: nat)
    requires |Print(m)| > PRECISION && p == Pow10(|Print(m)| - PRECISION)
    ensures Nearest(m, p, HalfEven(m, p)) && SigInt(m) == HalfEven(m, p) * p
  {
    HalfEvenNearest(m, p);
  }

  lemma Regroup(x: int, p: int, q: int)
    ensures (x * p) * q == x * (p * q)
  {
  }

  /** A multiple of the rounding unit is not rounded. */
  lemma SigMultiple(m: nat, x: nat, p: nat)
    requires |Print(m)| > PRECISION && p == Pow10(|Print(m)| - PRECISION) && m == x * p
    ensures SigInt(m) == m
  {
    SigNearest(m, p);
    HalfEvenExact(x, p);
  }

  lemma SplitPower(m: nat, a: nat, b: nat)
    ensures m * Pow10(a + b) == (m * Pow10(a)) * Pow10(b)
  {
    Pow10Add(a, b);
    Regroup(m, Pow10(a), Pow10(b));
  }

  lemma SplitMultiple(m: nat, x: nat, big: nat, a: nat, b: nat)
    requires x == m * Pow10(a) && big == m * Pow10(a + b)
    ensures big == x * Pow10(b)
  {
    SplitPower(m, a, b);
  }

  lemma SigScaleShort(m: nat, k: nat, big: nat)
    requires |Print(m)| <= PRECISION && |Print(big)| == |Print(m)| + k && big == m * Pow10(k)
    ensures SigInt(big) == big
  {
    if |Print(big)| > PRECISION {
      var a, b := PRECISION - |Print(m)|, |Print(big)| - PRECISION;
      MulMonotone(0, m, Pow10(a));
      SplitMultiple(m, m * Pow10(a), big, a, b);
      SigMultiple(big, m * Pow10(a), Pow10(b));
    }
  }

  lemma SigTimes(m: nat, big: nat, p: nat, q: nat)
    requires q > 0 && big == m * q && |Print(m)| > PRECISION && |Print(big)| > PRECISION
    requires p == Pow10(|Print(m)| - PRECISION) && p * q == Pow10(|Print(big)| - PRECISION)
    ensures SigInt(big) == SigInt(m) * q
  {
    SigNearest(m, p);
    SigNearest(big, p * q);
    HalfEvenScale(m, p, q);
    Regroup(HalfEven(m, p), p, q);
  }

  lemma SigScaleLong(m: nat, k: nat, big: nat)
    requires |Print(m)| > PRECISION && |Print(big)| == |Print(m)| + k && big == m * Pow10(k)
    ensures SigInt(big) == SigInt(m) * Pow10(k)
  {
    Pow10Add(|Print(m)| - PRECISION, k);
    SigTimes(m, big, Pow10(|Print(m)| - PRECISION), Pow10(k));
  }

  /** Rounding does not depend on trailing zeros. */
  lemma SigScale(m: nat, k: nat)
    ensures m * Pow10(k) >= 0 && SigInt(m * Pow10(k)) == SigInt(m) * Pow10(k)
  {
    MulMonotone(0, m, Pow10(k));
    if m > 0 {
      PrintTimes(m, k);
      if |Print(m)| <= PRECISION {
        SigScaleShort(m, k, m * Pow10(k));
      } else {
        SigScaleLong(m, k, m * Pow10(k));
      }
    }
  }

  lemma QuotientOf(h: nat, p: nat)
    requires p > 0
    ensures (h * p) / p == h && (h * p) % p == 0
  {
    var q, r := (h * p) / p, (h * p) % p;
    assert h * p == p * q + r;
    assert (h - q) * p == r && (q - h) * p == 0 - r;
    if h > q { MulMonotone(1, h - q, p); }
    if q > h { MulMonotone(1, q - h, p); }
  }

  /** At most forty digits are kept: beyond them, the nearest multiple of the fortieth digit's unit, the
      even one of two. */
  lemma FortyDigits(m: nat)
    ensures |Print(m)| <= 40 ==> SigInt(m) == m
    ensures |Print(m)| > 40 ==>
              var p := Pow10(|Print(m)| - 40); SigInt(m) % p == 0 && Nearest(m, p, SigInt(m) / p)
  {
    if |Print(m)| > 40 {
      var p := Pow10(|Print(m)| - 40);
      SigNearest(m, p);
      QuotientOf(HalfEven(m, p), p);
    }
  }

  // ----- Order -----

  /** A multiple of the rounding unit below or above the value stays there. */
  lemma SigBounds(m: nat, x: nat, y: nat, p: nat)
    requires |Print(m)| > PRECISION && p == Pow10(|Print(m)| - PRECISION) && x * p <= m <= y * p
    ensures x * p <= SigInt(m) <= y * p
  {
    var q := HalfEven(m, p);
    SigNearest(m, p);
    NearestExact(x, p);
    NearestExact(y, p);
    NearestMonotone(x * p, m, p, x, q);
    NearestMonotone(m, y * p, p, q, y);
    MulMonotone(x, q, p);
    MulMonotone(q, y, p);
  }

  /** The rounded value stays between the powers of ten that enclose the value. */
  lemma SigRange(m: nat)
    requires m > 0
    ensures var n := |Print(m)|; Pow10(n - 1) <= SigInt(m) <= Pow10(n)
  {
    var n := |Print(m)|;
    PrintRange(m);
    if n > PRECISION {
      Pow10Add(PRECISION - 1, n - PRECISION);
      Pow10Add(PRECISION, n - PRECISION);
      SigBounds(m, Pow10(PRECISION - 1), Pow10(PRECISION), Pow10(n - PRECISION));
    }
  }

  lemma SigSameLength(m: nat, n: nat)
    requires 0 < m <= n && |Print(m)| == |Print(n)|
    ensures SigInt(m) <= SigInt(n)
  {
    if |Print(m)| > PRECISION {
      var p := Pow10(|Print(m)| - PRECISION);
      SigNearest(m, p);
      SigNearest(n, p);
      NearestMonotone(m, n, p, HalfEven(m, p), HalfEven(n, p));
      MulMonotone(HalfEven(m, p), HalfEven(n, p), p);
    }
  }

  /** Rounding to 40 significant digits is monotone. */
  lemma SigMonotone(m: nat, n: nat)
    requires m <= n
    ensures SigInt(m) <= SigInt(n)
  {
    if m > 0 {
      var i, j := |Print(m)|, |Print(n)|;
      PrintShorter(m, n, j);
      if i == j {
        SigSameLength(m, n);
      } else {
        SigRange(m);
        SigRange(n);
        Pow10Monotone(i, j - 1);
      }
    }
  }

  lemma PowerFixed(k: nat)
    ensures SigInt(Pow10(k)) == Pow10(k)
  {
    SigScale(1, k);
    assert 1 * Pow10(k) == Pow10(k);
  }

  /** Rounding twice is rounding once. */
  lemma SigIdempotent(m: nat)
    ensures SigInt(SigInt(m)) == SigInt(m)
  {
    var n := |Print(m)|;
    if n > PRECISION {
      var k := n - PRECISION;
      var p := Pow10(k);
      var q := HalfEven(m, p);
      SigNearest(m, p);
      AtMostPower(m);
      SigScale(q, k);
      if q < Pow10(PRECISION) {
        PrintLength(q, PRECISION);
      } else {
        PowerFixed(PRECISION);
      }
    }
  }

  lemma AtMostPower(m: nat)
    requires |Print(m)| > PRECISION
    ensures HalfEven(m, Pow10(|Print(m)| - PRECISION)) <= Pow10(PRECISION)
  {
    var k := |Print(m)| - PRECISION;
    SigNearest(m, Pow10(k));
    PrintRange(m);
    Pow10Add(PRECISION, k);
    NearestExact(Pow10(PRECISION), Pow10(k));
    NearestMonotone(m, Pow10(PRECISION) * Pow10(k), Pow10(k), HalfEven(m, Pow10(k)), Pow10(PRECISION));
  }

  // ----- Arithmetic on amounts that are not negative -----

  predicate NonNegative(d: Decimal) {
    Coef(d) >= 0
  }

  lemma AtNonNegative(d: Decimal, j: nat)
    requires NonNegative(d) && d.scale <= j
    ensures At(d, j) == d.mag * Pow10(j - d.scale) && At(d, j) >= 0
  {
    MulMonotone(0, d.mag, Pow10(j - d.scale));
    assert 0 * Pow10(j - d.scale) == 0;
  }

  lemma SignificantAt(d: Decimal, j: nat)
    requires NonNegative(d) && d.scale <= j
    ensures var r := Significant(d);
            NonNegative(r) && r.scale <= j && At(d, j) >= 0 && At(r, j) == SigInt(At(d, j))
  {
    AtNonNegative(d, j);
    SigScale(d.mag, j - d.scale);
    if |Print(d.mag)| > PRECISION {
      var r := Significant(d);
      MakeAt(d.neg, SigInt(d.mag), d.scale);
      AtRescale(r, d.scale, j);
      MakeSmaller(d.neg, SigInt(d.mag), d.scale);
    }
  }

  lemma MakeNonNegative(neg: bool, mag: nat, scale: nat, j: nat)
    requires scale <= j && (!neg || mag == 0)
    ensures var d := Make(neg, mag, scale); NonNegative(d) && At(d, j) == mag * Pow10(j - scale)
  {
    MakeAt(neg, mag, scale);
    MakeSmaller(neg, mag, scale);
    AtRescale(Make(neg, mag, scale), scale, j);
  }

  function ExactProduct(a: Decimal, b: Decimal): Decimal {
    Make(a.neg != b.neg, a.mag * b.mag, a.scale + b.scale)
  }

  lemma ProductAt(a: Decimal, b: Decimal, i: nat, j: nat)
    requires NonNegative(a) && NonNegative(b) && a.scale <= i && b.scale <= j
    ensures NonNegative(ExactProduct(a, b)) && ExactProduct(a, b).scale <= i + j
    ensures At(ExactProduct(a, b), i + j) == At(a, i) * At(b, j)
  {
    AtNonNegative(a, i);
    AtNonNegative(b, j);
    ZeroProduct(a, b);
    MakeNonNegative(a.neg != b.neg, a.mag * b.mag, a.scale + b.scale, i + j);
    Pow10Add(i - a.scale, j - b.scale);
    FactorProduct(a.mag, b.mag, Pow10(i - a.scale), Pow10(j - b.scale));
  }

  lemma SignificantAs(d: Decimal, j: nat, value: int)
    requires NonNegative(d) && d.scale <= j && At(d, j) == value
    ensures value >= 0 && NonNegative(Significant(d)) && Significant(d).scale <= j
    ensures At(Significant(d), j) == SigInt(value)
  {
    SignificantAt(d, j);
  }

  /** A product, at any scales of its factors. */
  lemma MulAt(a: Decimal, b: Decimal, i: nat, j: nat, product: int)
    requires NonNegative(a) && NonNegative(b) && a.scale <= i && b.scale <= j && product == At(a, i) * At(b, j)
    ensures product >= 0 && NonNegative(Mul(a, b)) && Mul(a, b).scale <= i + j
    ensures At(Mul(a, b), i + j) == SigInt(product)
  {
    ProductAt(a, b, i, j);
    SignificantAs(ExactProduct(a, b), i + j, product);
  }

  lemma ZeroProduct(a: Decimal, b: Decimal)
    requires NonNegative(a) && NonNegative(b)
    ensures a.neg != b.neg ==> a.mag * b.mag == 0
  {
  }

  function ExactSum(a: Decimal, b: Decimal): Decimal {
    var k := Max(a.scale, b.scale);
    FromCoef(a.neg && b.neg, At(a, k) + At(b, k), k)
  }

  lemma ExactSumAt(a: Decimal, b: Decimal, j: nat)
    requires a.scale <= j && b.scale <= j
    ensures ExactSum(a, b).scale <= j && At(ExactSum(a, b), j) == At(a, j) + At(b, j)
  {
    var k := Max(a.scale, b.scale);
    FromCoefAt(a.neg && b.neg, At(a, k) + At(b, k), k);
    SumRescale(ExactSum(a, b), a, b, k, j);
  }

  /** A sum, at any scale of its terms. */
  lemma SumAt(a: Decimal, b: Decimal, j: nat)
    requires NonNegative(a) && NonNegative(b) && a.scale <= j && b.scale <= j
    ensures At(a, j) >= 0 && At(b, j) >= 0
    ensures NonNegative(Add(a, b)) && Add(a, b).scale <= j
    ensures At(Add(a, b), j) == SigInt(At(a, j) + At(b, j))
  {
    AtNonNegative(a, j);
    AtNonNegative(b, j);
    ExactSumAt(a, b, j);
    CoefSign(ExactSum(a, b), j);
    SignificantAt(ExactSum(a, b), j);
  }

  lemma CoefSign(d: Decimal, k: nat)
    requires d.scale <= k && At(d, k) >= 0
    ensures NonNegative(d)
  {
    if Coef(d) < 0 {
      MulMonotone(Coef(d), -1, Pow10(k - d.scale));
    }
  }
}
