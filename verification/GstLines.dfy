/** The GST line of a fill against the lines it taxes: how far GST computed again from the emitted,
    rounded lines can be from it, and that this is reached. */
module GstLines {
  import opened Digits
  import opened Decimals
  import opened Money
  import opened Charges
  import opened ChargeBounds
  import opened ChargeErrors
  import opened Significance
  import T = Trades

  // ----- GST from the emitted lines -----

  /** GST computed again from the rounded lines. */
  function RederivedGst(r: ChargeRate, a: Amounts): Decimal {
    Mul(GstBase(Round(a.brokerage, 2), Round(a.exchangeFee, 2), Round(a.sebiFee, 2)), r.gstRate)
  }

  lemma TimesGap(p: int, q: int, m: nat, c: int)
    requires p - q >= c
    ensures m * p >= m * q + c * m
  {
    MulMonotone(c, p - q, m);
    assert m * p == m * q + (p - q) * m;
  }

  /** Values less than `c` units apart are rounded to integers at most `c` apart. */
  lemma NearestClose(x: int, y: int, m: nat, p: int, q: int, c: nat)
    requires m > 0 && Nearest(x, m, p) && Nearest(y, m, q) && 0 - c * m < x - y < c * m
    ensures 0 - c <= p - q <= c
  {
    assert (c + 1) * m == c * m + m;
    if p - q >= c + 1 {
      TimesGap(p, q, m, c + 1);
    } else if q - p >= c + 1 {
      TimesGap(q, p, m, c + 1);
    }
  }

  lemma ThreeTerms(p: int, a: int, b: int, c: int)
    ensures p * (a + b + c) == p * a + p * b + p * c
  {
  }

  lemma ThreeRoundings(b: Decimal, e: Decimal, f: Decimal, j: nat, paisa: nat, base: int, paise: int)
    requires b.scale <= j && e.scale <= j && f.scale <= j && j >= 2 && paisa == Pow10(j - 2)
    requires base == At(b, j) + At(e, j) + At(f, j) && paise == Paise(b) + Paise(e) + Paise(f)
    ensures 0 - 3 * paisa <= 2 * (base - paisa * paise) <= 3 * paisa
  {
    RoundError(b, j);
    RoundError(e, j);
    RoundError(f, j);
    ThreeTerms(paisa, Paise(b), Paise(e), Paise(f));
  }

  // Lines in paise are small enough for exact arithmetic.

  lemma LineBelow(x: Decimal, j: nat, k: nat, n: nat)
    requires Below(x, j, k) && j >= 2 && k <= n + (j - 2)
    ensures Below(Round(x, 2), 2, n)
  {
    PaiseBelow(x, j, k, n);
  }

  lemma AddSmall(a: Decimal, b: Decimal, j: nat, k: nat)
    requires Below(a, j, k) && Below(b, j, k) && k < PRECISION
    ensures Below(Add(a, b), j, k + 1) && At(Add(a, b), j) == At(a, j) + At(b, j)
  {
    AddBelow(a, b, j, k);
    SumAt(a, b, j);
    SigExact(At(a, j) + At(b, j), k + 1);
  }

  lemma MulSmall(a: Decimal, b: Decimal, i: nat, j: nat, m: nat, n: nat, product: int)
    requires Below(a, i, m) && Below(b, j, n) && m + n <= PRECISION && product == At(a, i) * At(b, j)
    ensures Mul(a, b).scale <= i + j && At(Mul(a, b), i + j) == product
  {
    AtNonNegative(a, i);
    AtNonNegative(b, j);
    BoundedProduct(At(a, i), At(b, j), Pow10(m), Pow10(n));
    Pow10Add(m, n);
    MulAt(a, b, i, j, product);
    SigExact(product, m + n);
  }

  lemma GstOnLines(b: Decimal, f: Decimal, h: Decimal, rate: Decimal, n: nat, g: int, paise: int)
    requires Below(b, 2, n) && Below(f, 2, n) && Below(h, 2, n) && Below(rate, 4, 4) && n + 6 <= PRECISION
    requires g == At(rate, 4) && paise == At(b, 2) + At(f, 2) + At(h, 2)
    ensures var y := Mul(GstBase(b, f, h), rate); y.scale <= 6 && At(y, 6) == paise * g
  {
    AddSmall(b, f, 2, n);
    WidenBelow(h, 2, n, 2, n + 1);
    AddSmall(Add(b, f), h, 2, n + 1);
    MulSmall(GstBase(b, f, h), rate, 2, 4, n + 2, 4, paise * g);
  }

  /** By how many paise the GST line can differ from GST on the lines: three half-paisa roundings
      and a rate below two thirds move it by less than one paisa. */
  function Drift(g: int): nat {
    if 3 * g < 20000 then 1 else 2
  }

  lemma DriftBound(g: int, u: nat, w: nat)
    requires 0 <= g < 10000 && u > 0 && w == 1000000 * u
    ensures (110 * u) * g + 1000000 * u + (3 * w) * g < 2 * (Drift(g) * (10000 * w))
  {
    var top := if 3 * g < 20000 then 6666 else 9999;
    MulMonotone(g, top, 110 * u);
    MulMonotone(g, top, 3 * w);
  }

  /** `x` is close to GST on `base`, which is three half-paise from `paise` at most. */
  lemma GstShift(base: int, paise: int, g: int, x: int, u: nat, w: nat)
    requires 0 <= g < 10000 && u > 0 && w == 1000000 * u
    requires 0 - 3 * w <= 2 * (base - w * paise) <= 3 * w
    requires 0 - ((110 * u) * g + 1000000 * u) <= 2 * (x - base * g) <= (110 * u) * g + 1000000 * u
    ensures 0 - Drift(g) * (10000 * w) < x - (w * paise) * g < Drift(g) * (10000 * w)
  {
    DriftBound(g, u, w);
    ScaledError(base, w * paise, 3 * w, g);
  }

  lemma FromSix(y: Decimal, paise: int, g: int, m: nat, q: nat, w: nat)
    requires y.scale <= 6 && At(y, 6) == paise * g && m >= 2 && q == m + 4 && w == Pow10(m - 2)
    ensures y.scale <= q && At(y, q) == (w * paise) * g && Pow10(q - 2) == 10000 * w
  {
    AtRescale(y, 6, q);
    Commute(paise, g, w);
    Pow10Add(4, m - 2);
    PowersOfTen();
  }

  lemma Commute(x: int, y: int, p: int)
    ensures (x * y) * p == (p * x) * y
  {
  }

  lemma GstNeighbours(x: Decimal, y: Decimal, base: int, paise: int, g: int, m: nat, q: nat, u: nat, w: nat)
    requires 0 <= g < 10000 && u > 0 && w == 1000000 * u && m >= 2 && q == m + 4 && w == Pow10(m - 2)
    requires 0 - 3 * w <= 2 * (base - w * paise) <= 3 * w
    requires Near(x, q, base * g, (110 * u) * g + 1000000 * u) && y.scale <= 6 && At(y, 6) == paise * g
    ensures 0 - Drift(g) <= Paise(x) - Paise(y) <= Drift(g)
  {
    GstShift(base, paise, g, At(x, q), u, w);
    FromSix(y, paise, g, m, q, w);
    RoundNearest(x, 2, q);
    RoundNearest(y, 2, q);
    NearestClose(At(x, q), At(y, q), 10000 * w, Paise(x), Paise(y), Drift(g));
  }

  lemma RederivedAt(b: Decimal, f: Decimal, h: Decimal, rate: Decimal, m: nat, k: nat, n: nat, g: int)
    requires Below(b, m, k) && Below(f, m, k) && Below(h, m, k) && m >= 2 && k <= n + (m - 2) && n + 6 <= PRECISION
    requires Below(rate, 4, 4) && g == At(rate, 4)
    ensures var y := Mul(GstBase(Round(b, 2), Round(f, 2), Round(h, 2)), rate);
            y.scale <= 6 && At(y, 6) == (Paise(b) + Paise(f) + Paise(h)) * g
  {
    LineBelow(b, m, k, n);
    LineBelow(f, m, k, n);
    LineBelow(h, m, k, n);
    GstOnLines(Round(b, 2), Round(f, 2), Round(h, 2), rate, n, g, Paise(b) + Paise(f) + Paise(h));
  }

  lemma BaseGstNear(b: Decimal, f: Decimal, h: Decimal, rate: Decimal, m: nat, q: nat, n: nat,
                    base: int, g: int, u: nat, v: nat, err: int)
    requires Below(b, m, n) && Below(f, m, n) && Below(h, m, n) && Below(rate, 4, 4) && g == At(rate, 4) && q == m + 4
    requires base == At(b, m) + At(f, m) + At(h, m) && Loss(n, 2, u) && Loss(n + 2 + 4, 0, v) && err == 110 * u
    ensures Near(Mul(GstBase(b, f, h), rate), q, base * g, err * g + v)
  {
    GstOnTerms(b, f, h, rate, m, q, n, At(b, m), At(f, m), At(h, m), base, 0, g, u, v, err);
  }

  lemma GstClose(b: Decimal, f: Decimal, h: Decimal, rate: Decimal, y: Decimal, m: nat, q: nat, n: nat,
                 base: int, paise: int, g: int, u: nat, w: nat)
    requires Below(b, m, n) && Below(f, m, n) && Below(h, m, n) && Below(rate, 4, 4) && g == At(rate, 4) && 0 <= g < 10000
    requires m >= 2 && q == m + 4 && Loss(n, 6, u) && u > 0 && w == 1000000 * u && w == Pow10(m - 2)
    requires base == At(b, m) + At(f, m) + At(h, m) && paise == Paise(b) + Paise(f) + Paise(h)
    requires y.scale <= 6 && At(y, 6) == paise * g
    ensures 0 - Drift(g) <= Paise(Mul(GstBase(b, f, h), rate)) - Paise(y) <= Drift(g)
  {
    LossesFar(n, u);
    BaseGstNear(b, f, h, rate, m, q, n, base, g, u, w, 110 * u);
    ThreeRoundings(b, f, h, m, w, base, paise);
    GstNeighbours(Mul(GstBase(b, f, h), rate), y, base, paise, g, m, q, u, w);
  }

  lemma UnitsOfPaisa(j: nat, u: nat)
    requires j >= 1 && u == Pow10(j - 1)
    ensures Pow10(j + 5) == 1000000 * u && Loss(j + 39, 6, u)
  {
    Pow10Add(6, j - 1);
    PowersOfTen();
  }

  lemma GstLineClose(b: Decimal, f: Decimal, h: Decimal, rate: Decimal, j: nat, m: nat, n: nat, g: int, u: nat)
    requires j >= 1 && m == j + 7 && n == j + 39 && u == Pow10(j - 1)
    requires Below(b, m, n) && Below(f, m, n) && Below(h, m, n) && Below(rate, 4, 4) && g == At(rate, 4) && 0 <= g < 10000
    ensures var y := Mul(GstBase(Round(b, 2), Round(f, 2), Round(h, 2)), rate);
            0 - Drift(g) <= Paise(Mul(GstBase(b, f, h), rate)) - Paise(y) <= Drift(g)
  {
    UnitsOfPaisa(j, u);
    RederivedAt(b, f, h, rate, m, n, 34, g);
    GstClose(b, f, h, rate, Mul(GstBase(Round(b, 2), Round(f, 2), Round(h, 2)), rate), m, m + 4, n,
             At(b, m) + At(f, m) + At(h, m), Paise(b) + Paise(f) + Paise(h), g, u, 1000000 * u);
  }

  lemma GstConsistentBy(r: ChargeRate, a: Amounts, j: nat, m: nat, n: nat)
    requires RowFits(r) && j >= 1 && m == j + 7 && n == j + 39 && FiveBounded(a, m, n)
    requires a.gst == Mul(GstBase(a.brokerage, a.exchangeFee, a.sebiFee), r.gstRate)
    ensures var drift := Drift(At(r.gstRate, 4)); 0 - drift <= Paise(a.gst) - Paise(RederivedGst(r, a)) <= drift
  {
    GstRateBelow(r);
    GstLineClose(a.brokerage, a.exchangeFee, a.sebiFee, r.gstRate, j, m, n, At(r.gstRate, 4), Pow10(j - 1));
  }

  lemma GstConsistentAt(r: ChargeRate, side: T.Side, t: Decimal, j: nat, k: nat, m: nat, n: nat)
    requires RowFits(r) && j >= 1 && Below(t, j, k) && k == j + 32 && m == j + 7 && n == j + 39
    ensures var a, drift := AmountsFor(r, side, t), Drift(At(r.gstRate, 4));
            0 - drift <= Paise(a.gst) - Paise(RederivedGst(r, a)) <= drift
  {
    FillBounded(r, side, t, j, k, m, n);
    GstShape(r, side, t);
    GstConsistentBy(r, AmountsFor(r, side, t), j, m, n);
  }

  /** The GST line agrees with GST computed from the emitted lines: to a paisa for rates below two
      thirds, and to two paise for all rates below one; for every turnover up to 10^32 with any
      number `j` of decimals. */
  lemma GstConsistent(r: ChargeRate, side: T.Side, t: Decimal, j: nat)
    requires RowFits(r) && j >= 1 && Below(t, j, j + 32)
    ensures var a, drift := AmountsFor(r, side, t), Drift(At(r.gstRate, 4));
            0 - drift <= Paise(a.gst) - Paise(RederivedGst(r, a)) <= drift
  {
    GstConsistentAt(r, side, t, j, j + 32, j + 7, j + 39);
  }

  // ----- How far the GST line can be off -----

  lemma PaiseIs(x: Decimal, j: nat, m: nat, paise: int)
    requires x.scale <= j && j >= 2 && m == Pow10(j - 2) && Nearest(At(x, j), m, paise)
    ensures Paise(x) == paise
  {
    RoundNearest(x, 2, j);
    NearestOnly(At(x, j), m, Paise(x), paise);
  }

  /** The three lines and the tax, worked out for a turnover of `t` whole units. */
  predicate Worked(r: ChargeRate, t: int, b: int, f: int, h: int, paise: int, line: int, rederived: int)
    requires RowFits(r)
  {
    var tax, g := TaxedAt(r, t, 7), At(r.gstRate, 4);
    && Nearest(BrokerageAt(r, t, 7), 100000, b) && Nearest(t * At(r.exchangeFeeRate, 7), 100000, f)
    && Nearest(t * At(r.sebiFeeRate, 7), 100000, h) && paise == b + f + h
    && Nearest(tax * g, 1000000000, line) && Nearest(paise * g, 10000, rederived)
  }

  lemma WorkedLines(r: ChargeRate, t: int, a: Amounts, b: int, f: int, h: int, paise: int, line: int, rederived: int)
    requires RowFits(r) && IsExact(r, T.BUY, t, 7, 11, a) && Worked(r, t, b, f, h, paise, line, rederived)
    ensures Paise(a.brokerage) == b && Paise(a.exchangeFee) == f && Paise(a.sebiFee) == h && Paise(a.gst) == line
  {
    PowersOfTen();
    Pow10Add(2, 7);
    PaiseIs(a.brokerage, 7, 100000, b);
    PaiseIs(a.exchangeFee, 7, 100000, f);
    PaiseIs(a.sebiFee, 7, 100000, h);
    PaiseIs(a.gst, 11, 1000000000, line);
  }

  lemma WorkedRederived(r: ChargeRate, a: Amounts, paise: int, rederived: int)
    requires RowFits(r) && FiveBounded(a, 7, 31) && paise == Paise(a.brokerage) + Paise(a.exchangeFee) + Paise(a.sebiFee)
    requires Nearest(paise * At(r.gstRate, 4), 10000, rederived)
    ensures Paise(RederivedGst(r, a)) == rederived
  {
    GstRateBelow(r);
    RederivedAt(a.brokerage, a.exchangeFee, a.sebiFee, r.gstRate, 7, 31, 26, At(r.gstRate, 4));
    PowersOfTen();
    PaiseIs(RederivedGst(r, a), 6, 10000, rederived);
  }

  lemma WorkedBoth(r: ChargeRate, t: int, a: Amounts, b: int, f: int, h: int, paise: int, line: int, rederived: int)
    requires RowFits(r) && IsExact(r, T.BUY, t, 7, 11, a) && FiveBounded(a, 7, 31)
    requires Worked(r, t, b, f, h, paise, line, rederived)
    ensures Paise(a.gst) == line && Paise(RederivedGst(r, a)) == rederived
  {
    WorkedLines(r, t, a, b, f, h, paise, line, rederived);
    WorkedRederived(r, a, paise, rederived);
  }

  lemma WholeAmounts(r: ChargeRate, t: Decimal, a: Amounts)
    requires RowFits(r) && TurnoverFits(t, 0) && a == AmountsFor(r, T.BUY, t)
    ensures IsExact(r, T.BUY, At(t, 0), 7, 11, a) && FiveBounded(a, 7, 31)
  {
    AmountsExact(r, T.BUY, t, 0, 7, 11);
    FillBounded(r, T.BUY, t, 0, 24, 7, 31);
  }

  lemma WorkedOut(r: ChargeRate, t: Decimal, b: int, f: int, h: int, paise: int, line: int, rederived: int)
    requires RowFits(r) && TurnoverFits(t, 0) && Worked(r, At(t, 0), b, f, h, paise, line, rederived)
    ensures var a := AmountsFor(r, T.BUY, t); Paise(a.gst) == line && Paise(RederivedGst(r, a)) == rederived
  {
    var a := AmountsFor(r, T.BUY, t);
    WholeAmounts(r, t, a);
    WorkedBoth(r, At(t, 0), a, b, f, h, paise, line, rederived);
  }

  lemma WholeFits(n: nat)
    requires n < 1000
    ensures TurnoverFits(Exact(n, 0), 0) && At(Exact(n, 0), 0) == n
  {
    PowersOfTen();
    Pow10Monotone(3, 24);
  }

  lemma IntradayAt()
    ensures var r := CHARGE_RATES[1];
            && At(r.brokerageRate, 7) == 3000 && At(r.brokerageMin, 7) == 0 && At(r.brokerageMax, 7) == 200000000
            && At(r.exchangeFeeRate, 7) == 297 && At(r.sebiFeeRate, 7) == 10 && At(r.gstRate, 4) == 1800
  {
    PowersOfTen();
    var r := CHARGE_RATES[1];
    AtIs(r.brokerageRate, 7, 1000);
    AtIs(r.brokerageMin, 7, 10000000);
    AtIs(r.brokerageMax, 7, 10000000);
    AtIs(r.exchangeFeeRate, 7, 1);
    AtIs(r.sebiFeeRate, 7, 10);
    AtIs(r.gstRate, 4, 100);
  }

  lemma IntradayWorked()
    ensures RowFits(CHARGE_RATES[1]) && Worked(CHARGE_RATES[1], 250, 8, 1, 0, 9, 1, 2)
  {
    IntradayFits();
    IntradayAt();
  }

  /** In the table as it is: an intraday buy of 250 has lines of eight, one and no paise, 18 % of which
      are two paise, and a GST line of one. */
  lemma OnePaisaReached()
    ensures var a := AmountsFor(CHARGE_RATES[1], T.BUY, Exact(250, 0));
            Paise(a.gst) == 1 && Paise(RederivedGst(CHARGE_RATES[1], a)) == 2
  {
    IntradayWorked();
    WholeFits(250);
    WorkedOut(CHARGE_RATES[1], Exact(250, 0), 8, 1, 0, 9, 1, 2);
  }

  const TINY_RATE: Decimal := Exact(549999, 7)

  /** A row that is not in the table: three rates of 0.0549999, and GST at 70 %. */
  const DRIFT_ROW: ChargeRate :=
    ChargeRate(FIRST_RATES, EQ_DELIVERY, TINY_RATE, ZERO_AMOUNT, ZERO_AMOUNT, ZERO_AMOUNT, ZERO_AMOUNT,
               TINY_RATE, TINY_RATE, ZERO_AMOUNT, Exact(7, 1))

  lemma DriftRowFits()
    ensures RowFits(DRIFT_ROW) && At(TINY_RATE, 7) == 549999 && At(Exact(7, 1), 4) == 7000 && At(ZERO_AMOUNT, 7) == 0
  {
    PowersOfTen();
    AtIs(TINY_RATE, 7, 1);
    AtIs(Exact(7, 1), 4, 1000);
    FractionFits(0, 0, 7);
    BoundFits(0);
    ZeroAt(7);
  }

  /** At that row, on a turnover of one, the GST line is twelve paise, and ten when computed from the
      lines of five paise each. */
  lemma TwoPaiseReached()
    ensures RowFits(DRIFT_ROW)
    ensures var a := AmountsFor(DRIFT_ROW, T.BUY, Exact(1, 0));
            Paise(a.gst) == 12 && Paise(RederivedGst(DRIFT_ROW, a)) == 10
  {
    DriftRowFits();
    WholeFits(1);
    WorkedOut(DRIFT_ROW, Exact(1, 0), 5, 5, 5, 15, 12, 10);
  }
}
