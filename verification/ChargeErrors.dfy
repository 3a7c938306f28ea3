/** What rounding does to the charges of a fill, for every turnover up to 10^32 with any number of
    decimals: the total stays within three paise of the exact sum, up to a small fraction of a paisa
    where 40 digits are not enough. */
module ChargeErrors {
  import opened Texts
  import opened Digits
  import opened Decimals
  import opened Money
  import opened Charges
  import opened ChargeBounds
  import opened Significance
  import C = Canonical
  import M = MoneyText
  import N = NumericColumns
  import T = Trades

  // ----- Errors of single operations -----

  lemma SigExact(m: nat, k: nat)
    requires m <= Pow10(k) && k <= PRECISION
    ensures SigInt(m) == m
  {
    if m == Pow10(k) {
      PowerFixed(k);
    } else {
      PrintLength(m, k + 1);
      if k > 0 { PrintLength(m, k); }
    }
  }

  /** Numbers of at most `k` digits lose half of `u` at most when they are rounded to 40, and numbers
      of up to `d` digits more lose accordingly: nothing at all, or units of the last place. */
  predicate Loss(k: nat, d: nat, u: nat) {
    (u == 0 && k + d <= PRECISION) || (k >= PRECISION && u == Pow10(k - PRECISION))
  }

  lemma LossAt(k: nat, d: nat, u: nat, c: nat, v: nat)
    requires Loss(k, d, u) && c <= d && v == Pow10(c) * u
    ensures Loss(k + c, 0, v)
  {
    if u != 0 {
      Pow10Add(c, k - PRECISION);
    }
  }

  lemma LossesTo(k: nat, u: nat)
    requires Loss(k, 2, u)
    ensures Loss(k, 0, u) && Loss(k + 1, 0, 10 * u) && Loss(k + 2, 0, 100 * u)
  {
    PowersOfTen();
    LossAt(k, 2, u, 1, 10 * u);
    LossAt(k, 2, u, 2, 100 * u);
  }

  lemma LossesFar(k: nat, u: nat)
    requires Loss(k, 6, u)
    ensures Loss(k, 0, u) && Loss(k, 2, u) && Loss(k + 2 + 4, 0, 1000000 * u)
  {
    PowersOfTen();
    LossAt(k, 6, u, 6, 1000000 * u);
  }

  lemma SigCloseLong(m: nat, k: nat, u: nat)
    requires m <= Pow10(k) && k >= PRECISION && u == Pow10(k - PRECISION)
    ensures 0 - u <= 2 * (m - SigInt(m)) <= u
  {
    var n := |Print(m)|;
    if m == Pow10(k) {
      PowerFixed(k);
    } else if n > PRECISION {
      PrintLength(m, k);
      SigNearest(m, Pow10(n - PRECISION));
      Pow10Monotone(n - PRECISION, k - PRECISION);
    }
  }

  lemma SigClose(m: nat, k: nat, u: nat)
    requires m <= Pow10(k) && Loss(k, 0, u)
    ensures 0 - u <= 2 * (m - SigInt(m)) <= u
  {
    if k <= PRECISION {
      SigExact(m, k);
    } else {
      SigCloseLong(m, k, u);
    }
  }

  /** In units of `10^-j`, the value is off by half of `e` at most. */
  predicate Near(x: Decimal, j: nat, exact: int, e: int) {
    NonNegative(x) && x.scale <= j && 0 - e <= 2 * (At(x, j) - exact) <= e
  }

  lemma MulNear(a: Decimal, b: Decimal, i: nat, j: nat, s: nat, product: int, k: nat, u: nat)
    requires NonNegative(a) && NonNegative(b) && a.scale <= i && b.scale <= j && s == i + j
    requires product == At(a, i) * At(b, j) && product <= Pow10(k) && Loss(k, 0, u)
    ensures product >= 0 && Near(Mul(a, b), s, product, u) && At(Mul(a, b), s) == SigInt(product)
  {
    MulAt(a, b, i, j, product);
    SigClose(product, k, u);
  }

  lemma AddNear(a: Decimal, b: Decimal, j: nat, x: int, y: int, e: int, f: int, k: nat, u: nat)
    requires Near(a, j, x, e) && Near(b, j, y, f)
    requires At(a, j) + At(b, j) <= Pow10(k) && Loss(k, 0, u)
    ensures Near(Add(a, b), j, x + y, e + f + u)
  {
    SumAt(a, b, j);
    SigClose(At(a, j) + At(b, j), k, u);
  }

  lemma ScaledError(x: int, exact: int, e: int, g: nat)
    requires 0 - e <= 2 * (x - exact) <= e
    ensures 0 - e * g <= 2 * (x * g - exact * g) <= e * g
  {
    MulMonotone(2 * (x - exact), e, g);
    MulMonotone(0 - e, 2 * (x - exact), g);
    NegTimes(e, g);
    assert (2 * (x - exact)) * g == 2 * (x * g - exact * g);
  }

  // ----- Clamping -----

  lemma ClampedAt(v: Decimal, min: Decimal, max: Decimal, j: nat)
    requires v.scale <= j && min.scale <= j && max.scale <= j
    ensures Clamp(v, min, max).scale <= j
    ensures At(Clamp(v, min, max), j) == ClampInt(At(v, j), At(min, j), At(max, j))
  {
    CompareAt(v, min, j);
    CompareAt(max, v, j);
    CompareAt(max, ZERO_AMOUNT, j);
    Antisymmetric(v, max);
    Antisymmetric(max, ZERO_AMOUNT);
    CompareAt(ZERO_AMOUNT, max, j);
    ZeroAt(j);
  }

  /** Clamping does not enlarge an error, unless a ceiling below the floor is in force and the error
      crosses the floor. */
  lemma ClampClose(exact: int, rounded: int, min: int, max: int, u: int)
    requires 0 - u <= 2 * (rounded - exact) <= u
    requires min <= max || max <= 0 || (exact < min <==> rounded < min)
    ensures 0 - u <= 2 * (ClampInt(rounded, min, max) - ClampInt(exact, min, max)) <= u
  {
  }

  lemma InOrderAt(min: Decimal, max: Decimal, j: nat)
    requires min.scale <= j && max.scale <= j
    ensures InOrder(min, max) <==> At(min, j) <= At(max, j) || At(max, j) <= 0
  {
    CompareAt(min, max, j);
    CompareAt(max, ZERO_AMOUNT, j);
    ZeroAt(j);
  }

  lemma ClampNear(v: Decimal, min: Decimal, max: Decimal, j: nat, exact: int, u: int)
    requires Near(v, j, exact, u) && NonNegative(min) && NonNegative(max) && min.scale <= j && max.scale <= j
    requires InOrder(min, max) || (exact < At(min, j) <==> Compare(v, min) < 0)
    ensures Near(Clamp(v, min, max), j, ClampInt(exact, At(min, j), At(max, j)), u)
  {
    InOrderAt(min, max, j);
    CompareAt(v, min, j);
    ClampClose(exact, At(v, j), At(min, j), At(max, j), u);
    ClampedAt(v, min, max, j);
  }

  /** The brokerage bounds are in order, or rounding does not lift the brokerage to its floor. */
  predicate Steady(r: ChargeRate, t: Decimal, j: nat)
    requires RowFits(r) && t.scale <= j
  {
    InOrder(r.brokerageMin, r.brokerageMax)
    || (At(t, j) * At(r.brokerageRate, 7) < At(r.brokerageMin, j + 7)
        <==> Compare(Mul(t, r.brokerageRate), r.brokerageMin) < 0)
  }

  /** The floor has few digits, so that rounding never falls below it. */
  lemma FloorSettled(min: Decimal, j: nat)
    requires Below(min, 7, 16)
    ensures At(min, j + 7) >= 0 && SigInt(At(min, j + 7)) == At(min, j + 7)
  {
    AtNonNegative(min, 7);
    AtRescale(min, 7, j + 7);
    SigScale(At(min, 7), j);
    SigExact(At(min, 7), 16);
  }

  lemma RateAt(t: Decimal, rate: Decimal, j: nat, product: int)
    requires NonNegative(t) && t.scale <= j && Below(rate, 7, 7) && product == At(t, j) * At(rate, 7)
    ensures product >= 0 && Mul(t, rate).scale <= j + 7 && At(Mul(t, rate), j + 7) == SigInt(product)
  {
    MulAt(t, rate, j, 7, product);
  }

  /** The condition in integers, for the exact product, the computed one, the floor and the ceiling. */
  lemma SteadyAt(r: ChargeRate, t: Decimal, j: nat, product: int, v: int, lo: int, hi: int)
    requires RowFits(r) && RowBounded(r, 7, 16) && NonNegative(t) && t.scale <= j
    requires product == At(t, j) * At(r.brokerageRate, 7) && Mul(t, r.brokerageRate).scale <= j + 7
    requires v == At(Mul(t, r.brokerageRate), j + 7)
    requires lo == At(r.brokerageMin, j + 7) && hi == At(r.brokerageMax, j + 7)
    ensures Steady(r, t, j) <==> lo <= hi || hi <= 0 || (product < lo <==> v < lo)
  {
    InOrderAt(r.brokerageMin, r.brokerageMax, j + 7);
    CompareAt(Mul(t, r.brokerageRate), r.brokerageMin, j + 7);
  }

  lemma NotBelowFloor(lo: nat, product: nat)
    requires SigInt(lo) == lo
    ensures product >= lo ==> SigInt(product) >= lo
  {
    if product >= lo { SigMonotone(lo, product); }
  }

  lemma ShortProduct(lo: nat, product: nat)
    requires SigInt(lo) == lo && lo <= Pow10(PRECISION)
    ensures product < lo <==> SigInt(product) < lo
  {
    NotBelowFloor(lo, product);
    if product < lo { SigExact(product, PRECISION); }
  }

  lemma FloorShort(min: Decimal, j: nat, m: nat)
    requires Below(min, 7, 16) && m == j + 7 && j <= 24
    ensures At(min, m) <= Pow10(PRECISION)
  {
    WidenBelow(min, 7, 16, m, PRECISION);
  }

  /** Rounding lifts the brokerage to its floor only for turnovers of more than 24 decimals. */
  lemma ShortSteady(r: ChargeRate, t: Decimal, j: nat)
    requires RowFits(r) && RowBounded(r, 7, 16) && NonNegative(t) && t.scale <= j <= 24
    ensures Steady(r, t, j)
  {
    var product := At(t, j) * At(r.brokerageRate, 7);
    RateAt(t, r.brokerageRate, j, product);
    FloorSettled(r.brokerageMin, j);
    FloorShort(r.brokerageMin, j, j + 7);
    ShortProduct(At(r.brokerageMin, j + 7), product);
    SteadyAt(r, t, j, product, SigInt(product), At(r.brokerageMin, j + 7), At(r.brokerageMax, j + 7));
  }

  lemma CeilingCharged(v: Decimal, min: Decimal, max: Decimal, j: nat)
    requires v.scale <= j && min.scale <= j && max.scale <= j && 0 < At(max, j) < At(min, j)
    ensures Clamp(v, min, max) == max <==> At(min, j) <= At(v, j)
  {
    CompareAt(v, min, j);
    CompareAt(max, v, j);
    Antisymmetric(max, v);
    CompareAt(ZERO_AMOUNT, max, j);
    Antisymmetric(ZERO_AMOUNT, max);
    ZeroAt(j);
  }

  /** With bounds out of order clamping is not steady exactly where the exact brokerage is the floor
      and the computed one the ceiling. */
  lemma SteadyExactly(r: ChargeRate, t: Decimal, j: nat)
    requires RowFits(r) && RowBounded(r, 7, 16) && NonNegative(t) && t.scale <= j
    ensures var min, max := r.brokerageMin, r.brokerageMax;
            !Steady(r, t, j) <==>
              && 0 < At(max, j + 7) < At(min, j + 7)
              && At(t, j) * At(r.brokerageRate, 7) < At(min, j + 7)
              && Clamp(Mul(t, r.brokerageRate), min, max) == max
  {
    var product, min, max := At(t, j) * At(r.brokerageRate, 7), r.brokerageMin, r.brokerageMax;
    RateAt(t, r.brokerageRate, j, product);
    SteadyAt(r, t, j, product, SigInt(product), At(min, j + 7), At(max, j + 7));
    FloorSettled(min, j);
    NotBelowFloor(At(min, j + 7), product);
    if 0 < At(max, j + 7) < At(min, j + 7) {
      CeilingCharged(Mul(t, r.brokerageRate), min, max, j + 7);
    }
  }

  // An input where it is not: half of almost four, a floor of two, and a ceiling of one.

  const OUT_OF_ORDER: ChargeRate :=
    ChargeRate(FIRST_RATES, EQ_DELIVERY, Exact(5, 1), Exact(2, 0), Exact(1, 0), ZERO_AMOUNT, ZERO_AMOUNT,
               ZERO_AMOUNT, ZERO_AMOUNT, ZERO_AMOUNT, ZERO_AMOUNT)

  /** Four, less 2 * 10^-45. */
  function AlmostFour(): (t: Decimal)
    ensures NonNegative(t) && t.scale == 45
  {
    Exact(4 * Pow10(45) - 2, 45)
  }

  lemma AtIs(x: Decimal, j: nat, p: nat)
    requires x.scale <= j && p == Pow10(j - x.scale)
    ensures At(x, j) == Coef(x) * p
  {
  }

  lemma OutOfOrderFits()
    ensures RowFits(OUT_OF_ORDER) && At(OUT_OF_ORDER.brokerageRate, 7) == 5000000
  {
    PowersOfTen();
    AtIs(Exact(5, 1), 7, 1000000);
    BoundFits(1);
    BoundFits(2);
    FractionFits(0, 0, 7);
    FractionFits(0, 0, 4);
  }

  lemma NearestFromBelow(x: int, d: nat, p: nat, h: nat, c: nat)
    requires c == h * p && x == 2 * c - d && 2 * d < p
    ensures Nearest(x, p, 2 * h) && (2 * h) * p == 2 * c
  {
    assert p * (2 * h) == 2 * (h * p);
  }

  lemma SigIs(m: nat, p: nat, x: int, value: int)
    requires |Print(m)| > PRECISION && p == Pow10(|Print(m)| - PRECISION) && Nearest(m, p, x) && value == x * p
    ensures SigInt(m) == value
  {
    SigNearest(m, p);
    NearestOnly(m, p, HalfEven(m, p), x);
  }

  /** Just below twice a power of ten, a number of more than 40 digits is rounded up to it. */
  lemma RoundedUp(product: nat, n: nat, d: nat, p: nat, h: nat, c: nat)
    requires n > PRECISION && p == Pow10(n - PRECISION) && c == Pow10(n - 1) && c == h * p
    requires 2 * d < p && d <= c && product == 2 * c - d
    ensures SigInt(product) == 2 * c
  {
    LengthFromRange(product, n);
    NearestFromBelow(product, d, p, h, c);
    SigIs(product, p, 2 * h, 2 * c);
  }

  lemma TenMillion(d: nat, p: nat, h: nat, c: nat)
    requires d == 10000000 && p == Pow10(13) && h == Pow10(39) && c == Pow10(52)
    ensures 2 * d < p && d <= c && c == h * p
  {
    PowersOfTen();
    Pow10Add(6, 7);
    Pow10Add(39, 13);
    Pow10Monotone(7, 52);
  }

  lemma LiftedToTwo(product: nat, d: nat, p: nat, h: nat, c: nat)
    requires d == 10000000 && p == Pow10(13) && h == Pow10(39) && c == Pow10(52) && product == 2 * c - d
    ensures SigInt(product) == 2 * c
  {
    TenMillion(d, p, h, c);
    RoundedUp(product, 53, d, p, h, c);
  }

  lemma OutOfOrderBounds(c: nat)
    requires c == Pow10(52)
    ensures At(OUT_OF_ORDER.brokerageMin, 52) == 2 * c && At(OUT_OF_ORDER.brokerageMax, 52) == c
  {
    AtIs(OUT_OF_ORDER.brokerageMin, 52, c);
    AtIs(OUT_OF_ORDER.brokerageMax, 52, c);
  }

  lemma UnsteadyBrokerage(t: Decimal, product: int, c: nat)
    requires NonNegative(t) && t.scale == 45 && c == Pow10(52) && product == 2 * c - 10000000
    requires RowFits(OUT_OF_ORDER) && product == At(t, 45) * At(OUT_OF_ORDER.brokerageRate, 7)
    ensures !Steady(OUT_OF_ORDER, t, 45) && product < At(OUT_OF_ORDER.brokerageMin, 52)
  {
    var r := OUT_OF_ORDER;
    FitsBounded(r);
    RateAt(t, r.brokerageRate, 45, product);
    LiftedToTwo(product, 10000000, Pow10(13), Pow10(39), c);
    OutOfOrderBounds(c);
    SteadyAt(r, t, 45, product, 2 * c, 2 * c, c);
  }

  /** The floor of two is due, and the ceiling of one is charged. */
  lemma CeilingInPlaceOfFloor()
    ensures var r, t := OUT_OF_ORDER, AlmostFour();
            && RowFits(r) && !Steady(r, t, 45)
            && At(t, 45) * At(r.brokerageRate, 7) < At(r.brokerageMin, 52)
            && AmountsFor(r, T.BUY, t).brokerage == r.brokerageMax
  {
    var r, t := OUT_OF_ORDER, AlmostFour();
    OutOfOrderFits();
    AtIs(t, 45, 1);
    Pow10Add(45, 7);
    PowersOfTen();
    UnsteadyBrokerage(t, (4 * Pow10(45) - 2) * 5000000, Pow10(52));
    FitsBounded(r);
    SteadyExactly(r, t, 45);
  }

  // ----- Errors of the amounts -----

  lemma RateNear(t: Decimal, rate: Decimal, j: nat, k: nat, i: nat, m: nat, n: nat, u: nat)
    requires Below(t, j, k) && Below(rate, i, i) && m == j + i && n == k + i && Loss(n, 0, u)
    ensures var product := At(t, j) * At(rate, i); product >= 0 && Near(Mul(t, rate), m, product, u)
  {
    AtNonNegative(t, j);
    AtNonNegative(rate, i);
    BoundedProduct(At(t, j), At(rate, i), Pow10(k), Pow10(i));
    Pow10Add(k, i);
    MulNear(t, rate, j, i, m, At(t, j) * At(rate, i), n, u);
  }

  lemma PairNear(b: Decimal, f: Decimal, j: nat, x: int, y: int, e: int, k: nat, v: nat)
    requires Near(b, j, x, e) && Near(f, j, y, e) && Below(b, j, k) && Below(f, j, k) && Loss(k + 1, 0, v)
    ensures Near(Add(b, f), j, x + y, 2 * e + v) && Below(Add(b, f), j, k + 1)
  {
    AddBelow(b, f, j, k);
    AddNear(b, f, j, x, y, e, e, k + 1, v);
  }

  /** The base of GST, when each of its terms is off by half of `e` at most. */
  lemma BaseNear(b: Decimal, f: Decimal, g: Decimal, j: nat, x: int, y: int, z: int, e: int, k: nat, u: nat)
    requires Near(b, j, x, e) && Near(f, j, y, e) && Near(g, j, z, e)
    requires Below(b, j, k) && Below(f, j, k) && Below(g, j, k) && Loss(k, 2, u)
    ensures Near(GstBase(b, f, g), j, x + y + z, 3 * e + 110 * u) && Below(GstBase(b, f, g), j, k + 2)
  {
    LossesTo(k, u);
    PairNear(b, f, j, x, y, e, k, 10 * u);
    WidenBelow(g, j, k, j, k + 1);
    AddNear(Add(b, f), g, j, x + y, z, 2 * e + 10 * u, e, k + 2, 100 * u);
    AddBelow(Add(b, f), g, j, k + 1);
  }

  lemma RateOnBase(base: Decimal, rate: Decimal, j: nat, i: nat, s: nat, k: nat, x: int, g: int, v: nat)
    requires Below(base, j, k) && Below(rate, i, i) && s == j + i && x == At(base, j) && g == At(rate, i)
    requires Loss(k + i, 0, v)
    ensures 0 <= x && 0 <= g && Near(Mul(base, rate), s, x * g, v)
  {
    AtNonNegative(base, j);
    AtNonNegative(rate, i);
    BoundedProduct(x, g, Pow10(k), Pow10(i));
    Pow10Add(k, i);
    MulNear(base, rate, j, i, s, x * g, k + i, v);
  }

  lemma GstNear(base: Decimal, rate: Decimal, j: nat, exact: int, e: int, i: nat, s: nat, k: nat, g: int, v: nat)
    requires Near(base, j, exact, e) && Below(base, j, k) && Below(rate, i, i) && s == j + i && g == At(rate, i)
    requires Loss(k + i, 0, v)
    ensures Near(Mul(base, rate), s, exact * g, e * g + v)
  {
    RateOnBase(base, rate, j, i, s, k, At(base, j), g, v);
    ScaledError(At(base, j), exact, e, g);
  }

  /** GST on terms that are off by half of `e` at most. */
  lemma GstOnTerms(b: Decimal, f: Decimal, h: Decimal, rate: Decimal, m: nat, q: nat, n: nat,
                   x: int, y: int, z: int, exact: int, e: int, g: int, u: nat, v: nat, err: int)
    requires Near(b, m, x, e) && Near(f, m, y, e) && Near(h, m, z, e) && exact == x + y + z && err == 3 * e + 110 * u
    requires Below(b, m, n) && Below(f, m, n) && Below(h, m, n) && Loss(n, 2, u)
    requires Below(rate, 4, 4) && q == m + 4 && g == At(rate, 4) && Loss(n + 2 + 4, 0, v)
    ensures Near(Mul(GstBase(b, f, h), rate), q, exact * g, err * g + v)
  {
    BaseNear(b, f, h, m, x, y, z, e, n, u);
    GstNear(GstBase(b, f, h), rate, m, exact, err, 4, q, n + 2, g, v);
  }

  // ----- All amounts of a fill -----

  /** All amounts but GST, off by half of `u` at most in units of 10^-m. */
  predicate FiveNear(r: ChargeRate, side: T.Side, t: int, m: nat, a: Amounts, u: int)
    requires RowFits(r) && m >= 7
  {
    && Near(a.brokerage, m, BrokerageAt(r, t, m), u) && Near(a.stt, m, SttAt(r, side, t), u)
    && Near(a.exchangeFee, m, t * At(r.exchangeFeeRate, 7), u) && Near(a.sebiFee, m, t * At(r.sebiFeeRate, 7), u)
    && Near(a.stamp, m, StampAt(r, side, t), u)
  }

  lemma BrokerageNear(r: ChargeRate, t: Decimal, j: nat, k: nat, m: nat, n: nat, u: nat)
    requires RowFits(r) && RowBounded(r, 7, 16) && Below(t, j, k) && Steady(r, t, j)
    requires m == j + 7 && n == k + 7 && Loss(n, 0, u)
    ensures Near(Clamp(Mul(t, r.brokerageRate), r.brokerageMin, r.brokerageMax), m, BrokerageAt(r, At(t, j), m), u)
  {
    RateNear(t, r.brokerageRate, j, k, 7, m, n, u);
    ClampNear(Mul(t, r.brokerageRate), r.brokerageMin, r.brokerageMax, m, At(t, j) * At(r.brokerageRate, 7), u);
  }

  lemma ZeroNear(j: nat, u: nat)
    ensures Near(ZERO_AMOUNT, j, 0, u)
  {
    ZeroAt(j);
  }

  lemma FiveAreNear(r: ChargeRate, side: T.Side, t: Decimal, j: nat, k: nat, m: nat, n: nat, u: nat)
    requires RowFits(r) && RowBounded(r, 7, 16) && Below(t, j, k) && Steady(r, t, j)
    requires m == j + 7 && n == k + 7 && Loss(n, 0, u)
    ensures FiveNear(r, side, At(t, j), m, AmountsFor(r, side, t), u)
  {
    BrokerageNear(r, t, j, k, m, n, u);
    RateNear(t, if side == T.BUY then r.sttBuyRate else r.sttSellRate, j, k, 7, m, n, u);
    RateNear(t, r.exchangeFeeRate, j, k, 7, m, n, u);
    RateNear(t, r.sebiFeeRate, j, k, 7, m, n, u);
    RateNear(t, r.stampDutyBuyRate, j, k, 7, m, n, u);
    ZeroNear(m, u);
  }

  lemma GstRateBelow(r: ChargeRate)
    requires RowFits(r)
    ensures Below(r.gstRate, 4, 4) && 0 <= At(r.gstRate, 4) < 10000
  {
    FitsNonNegative(r);
    PowersOfTen();
  }

  lemma GstIsNear(r: ChargeRate, side: T.Side, t: int, a: Amounts, m: nat, q: nat, n: nat, g: int, u: nat, v: nat)
    requires RowFits(r) && m >= 7 && FiveNear(r, side, t, m, a, u) && FiveBounded(a, m, n) && Below(r.gstRate, 4, 4)
    requires a.gst == Mul(GstBase(a.brokerage, a.exchangeFee, a.sebiFee), r.gstRate)
    requires g == At(r.gstRate, 4) && q == m + 4 && Loss(n, 2, u) && Loss(n + 2 + 4, 0, v)
    ensures Near(a.gst, q, TaxedAt(r, t, m) * g, (113 * u) * g + v)
  {
    GstOnTerms(a.brokerage, a.exchangeFee, a.sebiFee, r.gstRate, m, q, n, BrokerageAt(r, t, m),
               t * At(r.exchangeFeeRate, 7), t * At(r.sebiFeeRate, 7), TaxedAt(r, t, m), u, g, u, v, 113 * u);
  }

  lemma FillBounded(r: ChargeRate, side: T.Side, t: Decimal, j: nat, k: nat, m: nat, n: nat)
    requires RowFits(r) && Below(t, j, k) && j + 9 <= k && m == j + 7 && n == k + 7
    ensures RowBounded(r, 7, 16) && FiveBounded(AmountsFor(r, side, t), m, n)
  {
    FitsBounded(r);
    FiveBelow(r, side, t, j, k, 7, 16, m, n);
  }

  /** All six amounts, off by what rounding numbers of `n` digits and a few more costs. */
  lemma AmountsNear(r: ChargeRate, side: T.Side, t: Decimal, j: nat, k: nat, m: nat, n: nat, q: nat, u: nat)
    requires RowFits(r) && Below(t, j, k) && Steady(r, t, j) && j + 9 <= k
    requires m == j + 7 && n == k + 7 && q == j + 11 && Loss(n, 6, u)
    ensures var a, g := AmountsFor(r, side, t), At(r.gstRate, 4);
            && FiveNear(r, side, At(t, j), m, a, u)
            && Near(a.gst, q, TaxedAt(r, At(t, j), m) * g, (113 * u) * g + 1000000 * u)
  {
    LossesFar(n, u);
    FillBounded(r, side, t, j, k, m, n);
    FiveAreNear(r, side, t, j, k, m, n, u);
    GstRateBelow(r);
    GstShape(r, side, t);
    GstIsNear(r, side, At(t, j), AmountsFor(r, side, t), m, q, n, At(r.gstRate, 4), u, 1000000 * u);
  }

  // ----- When nothing is lost -----

  /** At most 24 digits, of which at most fifteen are decimals. */
  predicate TurnoverFits(t: Decimal, j: nat) {
    j <= 15 && Below(t, j, 24)
  }

  /** Every amount is the exact product or sum, in units of 10^-m and, for GST, of 10^-q. */
  predicate IsExact(r: ChargeRate, side: T.Side, t: int, m: nat, q: nat, a: Amounts)
    requires RowFits(r) && m >= 7
  {
    && FiveNear(r, side, t, m, a, 0)
    && Near(a.gst, q, TaxedAt(r, t, m) * At(r.gstRate, 4), 0)
  }

  lemma AmountsExact(r: ChargeRate, side: T.Side, t: Decimal, j: nat, m: nat, q: nat)
    requires RowFits(r) && TurnoverFits(t, j) && m == j + 7 && q == j + 11
    ensures IsExact(r, side, At(t, j), m, q, AmountsFor(r, side, t))
  {
    FitsBounded(r);
    ShortSteady(r, t, j);
    AmountsNear(r, side, t, j, 24, m, 31, q, 0);
  }

  // ----- The total -----

  lemma FinerNear(x: Decimal, m: nat, q: nat, exact: int, u: int)
    requires Near(x, m, exact, u) && q == m + 4
    ensures x.scale <= q && 0 - 10000 * u <= 2 * (At(x, q) - 10000 * exact) <= 10000 * u
  {
    AtRescale(x, m, q);
    PowersOfTen();
  }

  lemma FiveFiner(r: ChargeRate, side: T.Side, t: int, m: nat, q: nat, a: Amounts, u: nat)
    requires RowFits(r) && m >= 7 && q == m + 4 && FiveNear(r, side, t, m, a, u) && a.gst.scale <= q
    ensures AllFine(a, q)
    ensures 0 - 50000 * u
            <= 2 * (AmountsAt(a, q) - At(a.gst, q) - 10000 * (TaxedAt(r, t, m) + SttAt(r, side, t) + StampAt(r, side, t)))
            <= 50000 * u
  {
    FinerNear(a.brokerage, m, q, BrokerageAt(r, t, m), u);
    FinerNear(a.stt, m, q, SttAt(r, side, t), u);
    FinerNear(a.exchangeFee, m, q, t * At(r.exchangeFeeRate, 7), u);
    FinerNear(a.sebiFee, m, q, t * At(r.sebiFeeRate, 7), u);
    FinerNear(a.stamp, m, q, StampAt(r, side, t), u);
  }

  lemma GstErrorBound(g: int, u: nat)
    requires 0 <= g < 10000
    ensures (113 * u) * g + 1000000 * u <= 2130000 * u
  {
    MulMonotone(g, 10000, 113 * u);
  }

  lemma SumExpanded(r: ChargeRate, side: T.Side, t: int, m: nat, g: int)
    requires RowFits(r) && m >= 7 && g == At(r.gstRate, 4)
    ensures ExactCharges(r, side, t, m)
            == 10000 * (TaxedAt(r, t, m) + SttAt(r, side, t) + StampAt(r, side, t)) + TaxedAt(r, t, m) * g
  {
  }

  /** The sum of the unrounded amounts, in units of 10^-q. */
  lemma SumNear(r: ChargeRate, side: T.Side, t: int, m: nat, q: nat, a: Amounts, g: int, u: nat)
    requires RowFits(r) && m >= 7 && q == m + 4 && FiveNear(r, side, t, m, a, u)
    requires g == At(r.gstRate, 4) && 0 <= g < 10000 && Near(a.gst, q, TaxedAt(r, t, m) * g, (113 * u) * g + 1000000 * u)
    ensures AllFine(a, q) && 0 - 2180000 * u <= 2 * (AmountsAt(a, q) - ExactCharges(r, side, t, m)) <= 2180000 * u
  {
    FiveFiner(r, side, t, m, q, a, u);
    GstErrorBound(g, u);
    SumExpanded(r, side, t, m, g);
  }

  /** The total printed for a fill is the sum of its lines in paise: for every turnover up to 10^32,
      with any number `j` of decimals. */
  lemma FillTotal(tradeId: Text, r: ChargeRate, side: T.Side, t: Decimal, j: nat)
    requires RowFits(r) && RowCanonical(r) && Below(t, j, j + 32)
    ensures var total := Total(LinesOf(tradeId, AmountsFor(r, side, t)));
            total.scale <= 2 && At(total, 2) == PaiseSum(AmountsFor(r, side, t))
  {
    FitsBounded(r);
    LargeFillsFit(r, side, t, j, j + 32, 7, 16, 37, j + 14);
    TotalOfFill(tradeId, r, side, t, 37);
  }

  /** What arithmetic at 40 digits can lose of the charges: 0.00000109, in units of 10^-(j + 11), or
      nothing. */
  function Slack(t: Decimal, j: nat): nat
    requires j >= 1
  {
    if TurnoverFits(t, j) then 0 else 1090000 * Pow10(j - 1)
  }

  /** The unrounded amounts add up to `exact`, but for `slack`. */
  predicate SumsTo(a: Amounts, q: nat, exact: int, slack: int) {
    AllFine(a, q) && 0 - slack <= AmountsAt(a, q) - exact <= slack
  }

  lemma AmountsNearBy(r: ChargeRate, side: T.Side, t: Decimal, a: Amounts,
                      j: nat, k: nat, m: nat, n: nat, q: nat, u: nat, exact: int, slack: int)
    requires RowFits(r) && Below(t, j, k) && Steady(r, t, j) && j + 9 <= k && a == AmountsFor(r, side, t)
    requires m == j + 7 && n == k + 7 && q == j + 11 && Loss(n, 6, u)
    requires exact == ExactCharges(r, side, At(t, j), m) && slack == 1090000 * u
    ensures SumsTo(a, q, exact, slack)
  {
    AmountsNear(r, side, t, j, k, m, n, q, u);
    GstRateBelow(r);
    SumNear(r, side, At(t, j), m, q, a, At(r.gstRate, 4), u);
  }

  lemma ShortAmounts(r: ChargeRate, side: T.Side, t: Decimal, a: Amounts, j: nat, m: nat, q: nat, exact: int)
    requires RowFits(r) && TurnoverFits(t, j) && Steady(r, t, j) && a == AmountsFor(r, side, t)
    requires m == j + 7 && q == j + 11 && exact == ExactCharges(r, side, At(t, j), m)
    ensures SumsTo(a, q, exact, 0)
  {
    AmountsNearBy(r, side, t, a, j, 24, m, 31, q, 0, exact, 0);
  }

  lemma LongAmounts(r: ChargeRate, side: T.Side, t: Decimal, a: Amounts, j: nat, m: nat, q: nat, exact: int)
    requires RowFits(r) && j >= 1 && Below(t, j, j + 32) && Steady(r, t, j) && a == AmountsFor(r, side, t)
    requires m == j + 7 && q == j + 11 && exact == ExactCharges(r, side, At(t, j), m)
    ensures SumsTo(a, q, exact, 1090000 * Pow10(j - 1))
  {
    var u := Pow10(j - 1);
    AmountsNearBy(r, side, t, a, j, j + 32, m, j + 39, q, u, exact, 1090000 * u);
  }

  lemma RoundedOff(a: Amounts, q: nat, paise: int, exact: int, slack: int, paisa: nat)
    requires SumsTo(a, q, exact, slack) && q >= 2 && paise == PaiseSum(a) && paisa == Pow10(q - 2)
    ensures 0 - 3 * paisa - slack <= exact - paisa * paise <= 3 * paisa + slack
  {
    SixRoundings(a, q, paise);
  }

  /** `total` is within three paise, and the slack, of `exact`, where `paisa` is a paisa in its units. */
  predicate WithinThreePaise(total: Decimal, exact: int, paisa: int, slack: int) {
    total.scale <= 2 && 0 - 3 * paisa - slack <= exact - paisa * At(total, 2) <= 3 * paisa + slack
  }

  lemma LinesNearExact(r: ChargeRate, side: T.Side, t: Decimal, a: Amounts, total: Decimal,
                       j: nat, m: nat, q: nat, exact: int, slack: int, paisa: nat)
    requires RowFits(r) && j >= 1 && Below(t, j, j + 32) && Steady(r, t, j) && a == AmountsFor(r, side, t)
    requires m == j + 7 && q == j + 11 && exact == ExactCharges(r, side, At(t, j), m)
    requires slack == Slack(t, j) && paisa == Pow10(q - 2) && total.scale <= 2 && At(total, 2) == PaiseSum(a)
    ensures WithinThreePaise(total, exact, paisa, slack)
  {
    if TurnoverFits(t, j) {
      ShortAmounts(r, side, t, a, j, m, q, exact);
    } else {
      LongAmounts(r, side, t, a, j, m, q, exact);
    }
    RoundedOff(a, q, At(total, 2), exact, slack, paisa);
  }

  /** The total is that close to the exact sum of the charges: for every turnover up to 10^32 with any
      number `j` of decimals. The sum is in units of 10^-q. */
  lemma TotalNearExact(tradeId: Text, r: ChargeRate, side: T.Side, t: Decimal, j: nat, m: nat, q: nat)
    requires RowFits(r) && RowCanonical(r) && j >= 1 && Below(t, j, j + 32) && Steady(r, t, j)
    requires m == j + 7 && q == j + 11
    ensures WithinThreePaise(Total(LinesOf(tradeId, AmountsFor(r, side, t))), ExactCharges(r, side, At(t, j), m),
                             Pow10(q - 2), Slack(t, j))
  {
    var a := AmountsFor(r, side, t);
    FillTotal(tradeId, r, side, t, j);
    LinesNearExact(r, side, t, a, Total(LinesOf(tradeId, a)), j, m, q, ExactCharges(r, side, At(t, j), m),
                   Slack(t, j), Pow10(q - 2));
  }

  // ----- From the texts of a fill -----

  lemma RateMoves(x: int, y: int, rate: int, d: nat)
    requires 0 <= rate <= 10000000 && 0 - d <= 2 * (x - y) <= d
    ensures 0 - 10000000 * d <= 2 * (x * rate - y * rate) <= 10000000 * d
  {
    ScaledError(x, y, d, rate);
    MulMonotone(rate, 10000000, d);
  }

  lemma RatesSmall(r: ChargeRate)
    requires RowFits(r)
    ensures At(r.brokerageRate, 7) <= 10000000 && At(r.exchangeFeeRate, 7) <= 10000000
    ensures At(r.sebiFeeRate, 7) <= 10000000 && At(r.stampDutyBuyRate, 7) <= 10000000
    ensures At(r.sttBuyRate, 7) <= 10000000 && At(r.sttSellRate, 7) <= 10000000
  {
    PowersOfTen();
  }

  lemma TaxedMoves(r: ChargeRate, x: int, y: int, m: nat, d: nat)
    requires RowFits(r) && m >= 7 && InOrder(r.brokerageMin, r.brokerageMax) && 0 - d <= 2 * (x - y) <= d
    ensures 0 - 30000000 * d <= 2 * (TaxedAt(r, x, m) - TaxedAt(r, y, m)) <= 30000000 * d
  {
    RatesSmall(r);
    RateMoves(x, y, At(r.brokerageRate, 7), d);
    RateMoves(x, y, At(r.exchangeFeeRate, 7), d);
    RateMoves(x, y, At(r.sebiFeeRate, 7), d);
    InOrderAt(r.brokerageMin, r.brokerageMax, m);
    ClampClose(y * At(r.brokerageRate, 7), x * At(r.brokerageRate, 7), At(r.brokerageMin, m), At(r.brokerageMax, m),
               10000000 * d);
  }

  lemma OthersMove(r: ChargeRate, side: T.Side, x: int, y: int, d: nat)
    requires RowFits(r) && 0 - d <= 2 * (x - y) <= d
    ensures 0 - 10000000 * d <= 2 * (SttAt(r, side, x) - SttAt(r, side, y)) <= 10000000 * d
    ensures 0 - 10000000 * d <= 2 * (StampAt(r, side, x) - StampAt(r, side, y)) <= 10000000 * d
  {
    RatesSmall(r);
    RateMoves(x, y, At(if side == T.BUY then r.sttBuyRate else r.sttSellRate, 7), d);
    RateMoves(x, y, At(r.stampDutyBuyRate, 7), d);
  }

  lemma GstMoves(x: int, y: int, e: nat, g: int)
    requires 0 <= g < 10000 && 0 - e <= 2 * (x - y) <= e
    ensures 0 - 10000 * e <= 2 * (x * g - y * g) <= 10000 * e
  {
    ScaledError(x, y, e, g);
    MulMonotone(g, 10000, e);
  }

  /** Rates below one move the charges by at most eight times the change of the turnover. */
  lemma ChargesMove(r: ChargeRate, side: T.Side, x: int, y: int, m: nat, d: nat)
    requires RowFits(r) && m >= 7 && InOrder(r.brokerageMin, r.brokerageMax) && 0 - d <= 2 * (x - y) <= d
    ensures var e := ExactCharges(r, side, x, m) - ExactCharges(r, side, y, m);
            0 - 800000000000 * d <= 2 * e <= 800000000000 * d
  {
    TaxedMoves(r, x, y, m, d);
    OthersMove(r, side, x, y, d);
    GstRateBelow(r);
    GstMoves(TaxedAt(r, x, m), TaxedAt(r, y, m), 30000000 * d, At(r.gstRate, 4));
    SumExpanded(r, side, x, m, At(r.gstRate, 4));
    SumExpanded(r, side, y, m, At(r.gstRate, 4));
  }

  /** What the turnover of a fill can lose, in units of 10^-j, twice. */
  function TurnoverLoss(j: nat): nat {
    if j <= 8 then 0 else Pow10(j - 8)
  }

  /** Quantity and price of at most 10^16, with `i` and `k` decimals. */
  lemma TurnoverNear(quantity: Decimal, price: Decimal, i: nat, k: nat, j: nat)
    requires Below(quantity, i, i + 16) && Below(price, k, k + 16) && j == i + k
    ensures Near(Mul(quantity, price), j, At(quantity, i) * At(price, k), TurnoverLoss(j))
    ensures Below(Mul(quantity, price), j, j + 32)
  {
    AtNonNegative(quantity, i);
    AtNonNegative(price, k);
    BoundedProduct(At(quantity, i), At(price, k), Pow10(i + 16), Pow10(k + 16));
    Pow10Add(i + 16, k + 16);
    MulNear(quantity, price, i, k, j, At(quantity, i) * At(price, k), j + 32, TurnoverLoss(j));
    MulBelow(quantity, price, i, k, i + 16, k + 16);
  }

  /** The decimals of a value, and at least those of its column. */
  function PlacesOf(d: Decimal): nat {
    Max(d.scale, N.PLACES)
  }

  lemma LongFitsBelow(mag: nat, p: nat, top: nat)
    requires p > 0 && N.HalfAway(mag, p) < top
    ensures mag <= top * p
  {
    N.HalfAwayNearest(mag, p);
    MulMonotone(N.HalfAway(mag, p) + 1, top, p);
  }

  /** A value that fits its column is at most 10^16. */
  lemma FitsBelow(d: Decimal)
    requires N.Fits(d) && NonNegative(d)
    ensures Below(d, PlacesOf(d), PlacesOf(d) + 16)
  {
    PrintLength(Abs(N.Units(d)), 20);
    if d.scale > N.PLACES {
      LongColumn(d, d.scale - N.PLACES);
    }
  }

  lemma LongColumn(d: Decimal, k: nat)
    requires NonNegative(d) && d.scale == N.PLACES + k && k > 0 && Abs(N.Units(d)) < Pow10(20)
    ensures At(d, d.scale) <= Pow10(d.scale + 16)
  {
    AtNonNegative(d, d.scale);
    ZeroUnits(d);
    LongFitsBelow(d.mag, Pow10(k), Pow10(20));
    Pow10Add(20, k);
  }

  lemma ZeroUnits(d: Decimal)
    requires NonNegative(d) && d.scale > N.PLACES
    ensures Abs(N.Units(d)) == N.HalfAway(d.mag, Pow10(d.scale - N.PLACES))
  {
  }

  /** All that a fill can lose at 40 digits: 0.00000113 in units of 10^-(j + 11). */
  function FillSlack(t: Decimal, j: nat): nat
    requires j >= 1
  {
    Slack(t, j) + 400000000000 * TurnoverLoss(j)
  }

  lemma FillSlackSmall(t: Decimal, j: nat)
    requires j >= 1
    ensures FillSlack(t, j) <= 1130000 * Pow10(j - 1)
  {
    if j > 8 { Pow10Add(7, j - 8); PowersOfTen(); }
  }

  lemma CloserStill(total: Decimal, x: int, y: int, paisa: int, slack: int, d: nat)
    requires WithinThreePaise(total, x, paisa, slack) && 0 - 800000000000 * d <= 2 * (x - y) <= 800000000000 * d
    ensures WithinThreePaise(total, y, paisa, slack + 400000000000 * d)
  {
  }

  /** From quantity and price to the total, both with any number of decimals. */
  lemma FillNear(tradeId: Text, r: ChargeRate, side: T.Side, quantity: Decimal, price: Decimal,
                 i: nat, k: nat, j: nat, m: nat, q: nat, paisa: nat)
    requires RowGood(r) && Below(quantity, i, i + 16) && Below(price, k, k + 16)
    requires j == i + k && j >= 1 && m == j + 7 && q == j + 11 && paisa == Pow10(q - 2)
    ensures var t := Mul(quantity, price);
            WithinThreePaise(Total(LinesOf(tradeId, AmountsFor(r, side, t))),
                             ExactCharges(r, side, At(quantity, i) * At(price, k), m), paisa, FillSlack(t, j))
  {
    var t, product := Mul(quantity, price), At(quantity, i) * At(price, k);
    TurnoverNear(quantity, price, i, k, j);
    TotalNearExact(tradeId, r, side, t, j, m, q);
    ChargesMove(r, side, At(t, j), product, m, TurnoverLoss(j));
    CloserStill(Total(LinesOf(tradeId, AmountsFor(r, side, t))), ExactCharges(r, side, At(t, j), m),
                ExactCharges(r, side, product, m), paisa, Slack(t, j), TurnoverLoss(j));
  }

  lemma ColumnFillNear(tradeId: Text, r: ChargeRate, side: T.Side, x: Decimal, y: Decimal, i: nat, k: nat,
                       j: nat, m: nat, q: nat, paisa: nat, slack: nat)
    requires RowGood(r) && N.Fits(x) && NonNegative(x) && N.Fits(y) && NonNegative(y)
    requires i == PlacesOf(x) && k == PlacesOf(y) && j == i + k && m == j + 7 && q == j + 11
    requires paisa == Pow10(q - 2) && slack == 1130000 * Pow10(j - 1)
    ensures WithinThreePaise(Total(LinesOf(tradeId, AmountsFor(r, side, Mul(x, y)))),
                             ExactCharges(r, side, At(x, i) * At(y, k), m), paisa, slack)
  {
    FitsBelow(x);
    FitsBelow(y);
    FillNear(tradeId, r, side, x, y, i, k, j, m, q, paisa);
    FillSlackSmall(Mul(x, y), j);
  }

  lemma LinesForIs(rates: seq<ChargeRate>, fill: Fill, r: ChargeRate, x: Decimal, y: Decimal)
    requires M.Parse(fill.quantity) == C.Ok(x) && M.Parse(fill.price) == C.Ok(y)
    requires ActiveRate(rates, fill.segment, fill.executedAt) == C.Ok(r)
    ensures LinesFor(rates, fill) == C.Ok(LinesOf(fill.tradeId, AmountsFor(r, fill.side, Mul(x, y))))
  {
  }

  /** What is charged in the end: for every fill whose quantity and price are not negative and fit
      their columns, whatever their decimals, the lines' total lies within three paise, and
      0.00000113, of the exact charges on the exact turnover, at the row in force. `RowsGood` says
      that every row of the table will do. */
  lemma FillNearExact(rates: seq<ChargeRate>, fill: Fill, r: ChargeRate, x: Decimal, y: Decimal,
                      i: nat, k: nat, j: nat, m: nat, q: nat)
    requires M.Parse(fill.quantity) == C.Ok(x) && N.Fits(x) && NonNegative(x)
    requires M.Parse(fill.price) == C.Ok(y) && N.Fits(y) && NonNegative(y)
    requires ActiveRate(rates, fill.segment, fill.executedAt) == C.Ok(r) && RowGood(r)
    requires i == PlacesOf(x) && k == PlacesOf(y) && j == i + k && m == j + 7 && q == j + 11
    ensures LinesFor(rates, fill).Ok?
    ensures WithinThreePaise(Total(LinesFor(rates, fill).value), ExactCharges(r, fill.side, At(x, i) * At(y, k), m),
                             Pow10(q - 2), 1130000 * Pow10(j - 1))
  {
    LinesForIs(rates, fill, r, x, y);
    ColumnFillNear(fill.tradeId, r, fill.side, x, y, i, k, j, m, q, Pow10(q - 2), 1130000 * Pow10(j - 1));
  }
}
