/** What a `numeric(20,4)` column keeps of a value that is not negative, in whole numbers. */
module ColumnUnits {
  import opened Digits
  import opened Decimals
  import opened Money
  import opened Significance
  import N = NumericColumns

  lemma HalfUpScale(n: nat, m: nat, q: nat, c: nat)
    requires m > 0 && c > 0 && 0 - m <= 2 * (n - m * q) < m
    ensures 0 - m * c <= 2 * (n * c - (m * c) * q) < m * c
  {
    var e := 2 * (n - m * q);
    assert 2 * (n * c - (m * c) * q) == e * c;
    MulMonotone(0 - m, e, c);
    NegTimes(m, c);
    StrictTimes(e, m, c);
  }

  /** There is one such number. */
  lemma HalfUpOnly(n: nat, m: nat, p: nat, q: nat)
    requires m > 0 && 0 - m <= 2 * (n - m * p) < m && 0 - m <= 2 * (n - m * q) < m
    ensures p == q
  {
    assert m * (p - q) == m * p - m * q && m * (q - p) == m * q - m * p;
    if p > q { MulMonotone(1, p - q, m); }
    if q > p { MulMonotone(1, q - p, m); }
  }

  lemma Shift(mag: nat, a: nat, b: nat, t: nat)
    requires t == a + b
    ensures (mag * Pow10(a)) * Pow10(b) == mag * Pow10(t)
  {
    TimesPow10(mag, a, b);
  }

  lemma ShortUnits(d: Decimal, s: nat, n: nat, units: nat, m: nat)
    requires NonNegative(d) && d.scale <= 4 && d.scale <= s && n == At(d, s) && units == N.Units(d) && m == Pow10(s)
    ensures 10000 * n == m * units
  {
    AtNonNegative(d, s);
    AtNonNegative(d, 4);
    var t := s - d.scale + 4;
    Shift(d.mag, s - d.scale, 4, t);
    Shift(d.mag, 4 - d.scale, s, t);
    Thousands();
    Commuted(n, units, m);
  }

  lemma Commuted(n: nat, units: nat, m: nat)
    requires n * Pow10(4) == units * m && Pow10(4) == 10000
    ensures 10000 * n == m * units
  {
  }

  lemma Thousands()
    ensures Pow10(4) == 10000
  {
    assert Pow10(1) == 10 && Pow10(2) == 100 && Pow10(3) == 1000;
  }

  lemma LongUnits(d: Decimal, s: nat, n: nat, units: nat, c: nat, m: nat)
    requires NonNegative(d) && 4 < d.scale <= s && n == At(d, s) && units == N.Units(d)
    requires m == Pow10(d.scale - 4) && c == Pow10(s - d.scale) * 10000
    ensures d.mag * c == 10000 * n && m * c == Pow10(s)
    ensures 0 - m <= 2 * (d.mag - m * units) < m
  {
    N.HalfAwayNearest(d.mag, m);
    AtNonNegative(d, s);
    Thousands();
    Pow10Add(s - d.scale, 4);
    Pow10Add(d.scale - 4, s - d.scale + 4);
    Regroup(d.mag, Pow10(s - d.scale), 10000);
    if d.neg { assert d.mag == 0; }
  }

  lemma UnitsNonNegative(d: Decimal)
    requires NonNegative(d)
    ensures N.Units(d) >= 0
  {
    if d.scale <= 4 {
      AtNonNegative(d, 4);
    } else if d.neg {
      N.HalfAwayNearest(0, Pow10(d.scale - 4));
      HalfUpOnly(0, Pow10(d.scale - 4), N.HalfAway(0, Pow10(d.scale - 4)), 0);
    }
  }

  /** What the column keeps of a value that is not negative. */
  lemma UnitsAre(d: Decimal, s: nat, n: nat, units: nat, m: nat)
    requires NonNegative(d) && d.scale <= s && n == At(d, s) && units == N.Units(d) && m == Pow10(s)
    ensures units == N.HalfAway(10000 * n, m)
  {
    if d.scale <= 4 {
      ShortUnits(d, s, n, units, m);
    } else {
      var small, c := Pow10(d.scale - 4), Pow10(s - d.scale) * 10000;
      LongUnits(d, s, n, units, c, small);
      HalfUpScale(d.mag, small, units, c);
    }
    N.HalfAwayNearest(10000 * n, m);
    HalfUpOnly(10000 * n, m, units, N.HalfAway(10000 * n, m));
  }

  /** The units of 0.0001 in `mag / 10^scale`: the nearest number, ties upwards. */
  function Kept(mag: nat, scale: nat): (units: nat)
    ensures 0 - Pow10(scale) <= 2 * (10000 * mag - Pow10(scale) * units) < Pow10(scale)
  {
    N.HalfAwayNearest(10000 * mag, Pow10(scale));
    N.HalfAway(10000 * mag, Pow10(scale))
  }

  /** Twenty digits are the most a column holds. */
  const LIMIT: nat := 100_000_000_000_000_000_000

  lemma TwentyDigits(n: nat)
    ensures |Print(n)| <= 20 <==> n < LIMIT
  {
    PrintLength(n, 20);
    assert Pow10(5) == 100000;
    Pow10Add(5, 5);
    Pow10Add(10, 10);
  }

  lemma KeptIs(d: Decimal)
    requires NonNegative(d)
    ensures N.Units(d) == Kept(d.mag, d.scale)
    ensures N.Fits(d) <==> Kept(d.mag, d.scale) < LIMIT
  {
    AtNonNegative(d, d.scale);
    UnitsNonNegative(d);
    UnitsAre(d, d.scale, d.mag, N.Units(d), Pow10(d.scale));
    TwentyDigits(N.Units(d));
  }

  lemma UnitsOdd(d: Decimal)
    ensures var u := N.Units(Decimal(false, d.mag, d.scale)); N.Units(d) == if d.neg then 0 - u else u
  {
    if d.scale <= 4 { NegTimes(d.mag, Pow10(4 - d.scale)); }
  }

  /** The same for a value of either sign. */
  lemma SignedKept(d: Decimal)
    ensures N.Units(d) == if d.neg then 0 - Kept(d.mag, d.scale) else Kept(d.mag, d.scale)
    ensures N.Fits(d) <==> Kept(d.mag, d.scale) < LIMIT
  {
    UnitsOdd(d);
    KeptIs(Decimal(false, d.mag, d.scale));
    SameSize(N.Units(d), Kept(d.mag, d.scale));
  }

  lemma SameSize(x: int, n: nat)
    requires x == n || x == 0 - n
    ensures |Print(Abs(x))| <= 20 <==> n < LIMIT
  {
    assert Abs(x) == n;
    TwentyDigits(n);
  }
}
