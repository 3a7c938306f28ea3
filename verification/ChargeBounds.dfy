/** The charges of a fill as integers: their exact amounts at any scale, how large the computed ones
    can be, and the total of the lines in paise. */
module ChargeBounds {
  import opened Texts
  import opened Digits
  import opened Decimals
  import opened Money
  import opened Charges
  import opened ChargeOrder
  import opened Significance
  import M = MoneyText
  import T = Trades

  // ----- Exact amounts -----

  /** Not negative, with at most `j` decimals, and below `10^(k - j)`. */
  predicate Within(x: Decimal, j: nat, k: nat) {
    x.scale <= j && 0 <= At(x, j) < Pow10(k)
  }

  /** Rates below one with at most seven decimals, bounds below 10^9, GST with at most four. */
  predicate RowFits(r: ChargeRate) {
    && Within(r.brokerageRate, 7, 7) && Within(r.sttBuyRate, 7, 7) && Within(r.sttSellRate, 7, 7)
    && Within(r.exchangeFeeRate, 7, 7) && Within(r.sebiFeeRate, 7, 7) && Within(r.stampDutyBuyRate, 7, 7)
    && Within(r.brokerageMin, 7, 16) && Within(r.brokerageMax, 7, 16)
    && Within(r.gstRate, 4, 4)
  }

  function ClampInt(v: int, min: int, max: int): int {
    if v < min then min else if max > 0 && v > max then max else v
  }

  /** The amounts for a turnover of `t` units of 10^-(m - 7), in units of 10^-m. */
  function BrokerageAt(r: ChargeRate, t: int, m: nat): int
    requires RowFits(r) && m >= 7
  {
    ClampInt(t * At(r.brokerageRate, 7), At(r.brokerageMin, m), At(r.brokerageMax, m))
  }

  function SttAt(r: ChargeRate, side: T.Side, t: int): int
    requires RowFits(r)
  {
    t * At(if side == T.BUY then r.sttBuyRate else r.sttSellRate, 7)
  }

  function StampAt(r: ChargeRate, side: T.Side, t: int): int
    requires RowFits(r)
  {
    if side == T.BUY then t * At(r.stampDutyBuyRate, 7) else 0
  }

  /** What GST is charged on. */
  function TaxedAt(r: ChargeRate, t: int, m: nat): int
    requires RowFits(r) && m >= 7
  {
    BrokerageAt(r, t, m) + t * At(r.exchangeFeeRate, 7) + t * At(r.sebiFeeRate, 7)
  }

  /** The exact sum of all charges, in units of 10^-(m + 4). */
  function ExactCharges(r: ChargeRate, side: T.Side, t: int, m: nat): int
    requires RowFits(r) && m >= 7
  {
    (TaxedAt(r, t, m) + SttAt(r, side, t) + StampAt(r, side, t)) * 10000 + TaxedAt(r, t, m) * At(r.gstRate, 4)
  }

  lemma ZeroAt(j: nat)
    ensures At(ZERO_AMOUNT, j) == 0
  {
    assert 0 * Pow10(j) == 0;
  }

  // ----- Lines in paise -----

  function Paise(x: Decimal): int {
    At(Round(x, 2), 2)
  }

  /** A rounded amount is off by half a paisa at most. */
  lemma RoundError(x: Decimal, j: nat)
    requires x.scale <= j && j >= 2
    ensures 0 - Pow10(j - 2) <= 2 * (At(x, j) - Pow10(j - 2) * Paise(x)) <= Pow10(j - 2)
  {
    RoundNearest(x, 2, j);
  }

  lemma LineAmount(tradeId: Text, chargeType: ChargeType, x: Decimal)
    requires Decimals.Canonical(x)
    ensures AmountOf(LineOf(tradeId, chargeType, x)).scale <= 2
    ensures At(AmountOf(LineOf(tradeId, chargeType, x)), 2) == Paise(x)
  {
    M.ParsePrint(Round(x, 2));
    PlainAt(Round(x, 2), 2);
  }

  lemma PlainAt(d: Decimal, k: nat)
    requires d.scale <= k
    ensures At(M.Plain(d), k) == At(d, k)
  {
  }

  /** The total so far, at most `i * 10^k` paise. */
  predicate TotalIs(lines: seq<Line>, paise: int, i: nat, k: nat) {
    var total := Total(lines);
    total.scale <= 2 && At(total, 2) == paise && 0 <= paise <= i * Pow10(k)
  }

  lemma TotalStep(lines: seq<Line>, tradeId: Text, chargeType: ChargeType, x: Decimal, paise: int, i: nat, k: nat)
    requires TotalIs(lines, paise, i, k) && Decimals.Canonical(x) && 0 <= Paise(x) < Pow10(k)
    requires i <= 5 && 0 < k && k + 1 < PRECISION
    ensures TotalIs(lines + Optional(tradeId, chargeType, x), paise + Paise(x), i + 1, k)
  {
    Successor(i, Pow10(k));
    if IsZero(x) {
      assert lines + Optional(tradeId, chargeType, x) == lines;
      ZeroPaise(x);
    } else {
      LineAmount(tradeId, chargeType, x);
      SmallSum(paise, Paise(x), i, k);
      LineAdded(lines, LineOf(tradeId, chargeType, x), paise, Paise(x));
    }
  }

  lemma Successor(i: nat, p: nat)
    ensures (i + 1) * p == i * p + p
  {
  }

  lemma LineAdded(lines: seq<Line>, l: Line, paise: int, more: int)
    requires Total(lines).scale <= 2 && At(Total(lines), 2) == paise
    requires AmountOf(l).scale <= 2 && At(AmountOf(l), 2) == more
    requires |Print(Abs(paise))| < PRECISION && |Print(Abs(more))| < PRECISION
    ensures Total(lines + [l]).scale <= 2 && At(Total(lines + [l]), 2) == paise + more
  {
    assert (lines + [l])[..|lines|] == lines;
    AddAt(Total(lines), AmountOf(l), 2);
  }

  lemma ZeroPaise(x: Decimal)
    requires x.mag == 0 && Decimals.Canonical(x)
    ensures Paise(x) == 0
  {
    assert At(x, 2) == 0 * Pow10(2) == 0;
  }

  lemma SmallSum(paise: int, more: int, i: nat, k: nat)
    requires 0 <= paise <= i * Pow10(k) && 0 <= more < Pow10(k)
    requires i <= 5 && 0 < k && k + 1 < PRECISION
    ensures |Print(Abs(paise))| < PRECISION && |Print(Abs(more))| < PRECISION
  {
    MulMonotone(i, 5, Pow10(k));
    PrintLength(Abs(paise), k + 1);
    PrintLength(Abs(more), k + 1);
  }

  predicate AllPaise(a: Amounts, k: nat) {
    && 0 <= Paise(a.brokerage) < Pow10(k) && 0 <= Paise(a.stt) < Pow10(k) && 0 <= Paise(a.exchangeFee) < Pow10(k)
    && 0 <= Paise(a.sebiFee) < Pow10(k) && 0 <= Paise(a.stamp) < Pow10(k) && 0 <= Paise(a.gst) < Pow10(k)
  }

  function PaiseSum(a: Amounts): int {
    Paise(a.brokerage) + Paise(a.stt) + Paise(a.exchangeFee) + Paise(a.sebiFee) + Paise(a.stamp) + Paise(a.gst)
  }

  function FirstLines(tradeId: Text, a: Amounts): seq<Line> {
    Optional(tradeId, BROKERAGE, a.brokerage) + Optional(tradeId, STT, a.stt)
    + Optional(tradeId, EXCHANGE_FEE, a.exchangeFee)
  }

  function FirstPaise(a: Amounts): int {
    Paise(a.brokerage) + Paise(a.stt) + Paise(a.exchangeFee)
  }

  lemma NoLines(k: nat)
    ensures TotalIs([], 0, 0, k)
  {
    ZeroAt(2);
  }

  lemma FirstTotal(tradeId: Text, a: Amounts, k: nat)
    requires AllCanonical(a) && AllPaise(a, k) && 0 < k && k + 1 < PRECISION
    ensures TotalIs(FirstLines(tradeId, a), FirstPaise(a), 3, k)
  {
    NoLines(k);
    var l1 := Optional(tradeId, BROKERAGE, a.brokerage);
    assert [] + l1 == l1;
    TotalStep([], tradeId, BROKERAGE, a.brokerage, 0, 0, k);
    TotalStep(l1, tradeId, STT, a.stt, Paise(a.brokerage), 1, k);
    TotalStep(l1 + Optional(tradeId, STT, a.stt), tradeId, EXCHANGE_FEE, a.exchangeFee,
              Paise(a.brokerage) + Paise(a.stt), 2, k);
  }

  lemma LastTotal(tradeId: Text, a: Amounts, lines: seq<Line>, paise: int, k: nat)
    requires AllCanonical(a) && AllPaise(a, k) && 0 < k && k + 1 < PRECISION && TotalIs(lines, paise, 3, k)
    ensures TotalIs(lines + Optional(tradeId, SEBI_FEE, a.sebiFee) + Optional(tradeId, STAMP_DUTY, a.stamp)
                    + Optional(tradeId, GST, a.gst), paise + Paise(a.sebiFee) + Paise(a.stamp) + Paise(a.gst), 6, k)
  {
    TotalStep(lines, tradeId, SEBI_FEE, a.sebiFee, paise, 3, k);
    var l4, p4 := lines + Optional(tradeId, SEBI_FEE, a.sebiFee), paise + Paise(a.sebiFee);
    TotalStep(l4, tradeId, STAMP_DUTY, a.stamp, p4, 4, k);
    TotalStep(l4 + Optional(tradeId, STAMP_DUTY, a.stamp), tradeId, GST, a.gst, p4 + Paise(a.stamp), 5, k);
  }

  lemma LinesSplit(tradeId: Text, a: Amounts)
    ensures LinesOf(tradeId, a)
            == FirstLines(tradeId, a) + Optional(tradeId, SEBI_FEE, a.sebiFee) + Optional(tradeId, STAMP_DUTY, a.stamp)
               + Optional(tradeId, GST, a.gst)
  {
  }

  /** The total is the sum of the rounded amounts; lines left out are worth nothing. */
  lemma TotalIsSum(tradeId: Text, a: Amounts, k: nat)
    requires AllCanonical(a) && AllPaise(a, k) && 0 < k && k + 1 < PRECISION
    ensures Total(LinesOf(tradeId, a)).scale <= 2 && At(Total(LinesOf(tradeId, a)), 2) == PaiseSum(a)
  {
    FirstTotal(tradeId, a, k);
    LastTotal(tradeId, a, FirstLines(tradeId, a), FirstPaise(a), k);
    LinesSplit(tradeId, a);
  }

  // ----- From the lines to the amounts -----

  predicate RowCanonical(r: ChargeRate) {
    Decimals.Canonical(r.brokerageMin) && Decimals.Canonical(r.brokerageMax)
  }

  predicate AllFine(a: Amounts, j: nat) {
    && a.brokerage.scale <= j && a.stt.scale <= j && a.exchangeFee.scale <= j
    && a.sebiFee.scale <= j && a.stamp.scale <= j && a.gst.scale <= j
  }

  function AmountsAt(a: Amounts, j: nat): int
    requires AllFine(a, j)
  {
    At(a.brokerage, j) + At(a.stt, j) + At(a.exchangeFee, j) + At(a.sebiFee, j) + At(a.stamp, j) + At(a.gst, j)
  }

  /** `paise` is within three of the amounts' sum, compared in units of `10^-j`. */
  predicate WithinThree(a: Amounts, j: nat, paise: int) {
    && j >= 2 && AllFine(a, j)
    && 0 - 3 * Pow10(j - 2) <= AmountsAt(a, j) - Pow10(j - 2) * paise <= 3 * Pow10(j - 2)
  }

  /** Six roundings of half a paisa at most. */
  lemma SixRoundings(a: Amounts, j: nat, paise: int)
    requires AllFine(a, j) && j >= 2 && paise == PaiseSum(a)
    ensures WithinThree(a, j, paise)
  {
    RoundError(a.brokerage, j);
    RoundError(a.stt, j);
    RoundError(a.exchangeFee, j);
    RoundError(a.sebiFee, j);
    RoundError(a.stamp, j);
    RoundError(a.gst, j);
    SixTerms(Pow10(j - 2), Paise(a.brokerage), Paise(a.stt), Paise(a.exchangeFee), Paise(a.sebiFee),
             Paise(a.stamp), Paise(a.gst));
  }

  lemma SixTerms(p: int, a: int, b: int, c: int, d: int, e: int, f: int)
    ensures p * (a + b + c + d + e + f) == p * a + p * b + p * c + p * d + p * e + p * f
  {
  }

  // ----- Any turnover that the columns can produce -----

  /** Not negative, with at most `j` decimals, and at most `10^(k - j)`. */
  predicate Below(x: Decimal, j: nat, k: nat) {
    NonNegative(x) && x.scale <= j && At(x, j) <= Pow10(k)
  }

  lemma BoundedProduct(x: int, y: int, p: int, q: int)
    requires 0 <= x <= p && 0 <= y <= q
    ensures x * y <= p * q
  {
    MulMonotone(x, p, y);
    MulMonotone(y, q, p);
  }

  lemma SigAtMost(m: nat, k: nat)
    requires m <= Pow10(k)
    ensures SigInt(m) <= Pow10(k)
  {
    SigMonotone(m, Pow10(k));
    PowerFixed(k);
  }

  lemma MulBelow(a: Decimal, b: Decimal, i: nat, j: nat, m: nat, n: nat)
    requires Below(a, i, m) && Below(b, j, n)
    ensures Below(Mul(a, b), i + j, m + n)
  {
    var product := At(a, i) * At(b, j);
    AtNonNegative(a, i);
    AtNonNegative(b, j);
    BoundedProduct(At(a, i), At(b, j), Pow10(m), Pow10(n));
    Pow10Add(m, n);
    MulAt(a, b, i, j, product);
    SigAtMost(product, m + n);
  }

  lemma AddBelow(a: Decimal, b: Decimal, j: nat, k: nat)
    requires Below(a, j, k) && Below(b, j, k)
    ensures Below(Add(a, b), j, k + 1)
  {
    SumAt(a, b, j);
    SigAtMost(At(a, j) + At(b, j), k + 1);
  }

  lemma WidenBelow(x: Decimal, j: nat, k: nat, j': nat, k': nat)
    requires Below(x, j, k) && j <= j' && k + (j' - j) <= k'
    ensures Below(x, j', k')
  {
    AtRescale(x, j, j');
    MulMonotone(At(x, j), Pow10(k), Pow10(j' - j));
    Pow10Add(k, j' - j);
    Pow10Monotone(k + (j' - j), k');
  }

  lemma NearestBelow(n: int, m: nat, q: int, top: int)
    requires m > 0 && Nearest(n, m, q) && n <= top * m
    ensures q <= top
  {
    NearestExact(top, m);
    NearestMonotone(n, top * m, m, q, top);
  }

  lemma PaiseBelow(x: Decimal, j: nat, k: nat, n: nat)
    requires j >= 2 && Below(x, j, k) && k <= n + (j - 2)
    ensures NonNegative(Round(x, 2)) && 0 <= Paise(x) <= Pow10(n) < Pow10(n + 1)
  {
    RoundNonNegative(x, 2);
    AtNonNegative(Round(x, 2), 2);
    RoundNearest(x, 2, j);
    Pow10Monotone(k, n + (j - 2));
    Pow10Add(n, j - 2);
    NearestBelow(At(x, j), Pow10(j - 2), Paise(x), Pow10(n));
  }

  /** Rates of at most one with `i` decimals, bounds of at most `10^(w - i)`. */
  predicate RowBounded(r: ChargeRate, i: nat, w: nat) {
    && Below(r.brokerageRate, i, i) && Below(r.sttBuyRate, i, i) && Below(r.sttSellRate, i, i)
    && Below(r.exchangeFeeRate, i, i) && Below(r.sebiFeeRate, i, i) && Below(r.stampDutyBuyRate, i, i)
    && Below(r.brokerageMin, i, w) && Below(r.brokerageMax, i, w) && Below(r.gstRate, i, i)
  }

  predicate FiveBounded(a: Amounts, j: nat, k: nat) {
    && Below(a.brokerage, j, k) && Below(a.stt, j, k) && Below(a.exchangeFee, j, k)
    && Below(a.sebiFee, j, k) && Below(a.stamp, j, k)
  }

  predicate AmountsBounded(a: Amounts, j: nat, k: nat, i: nat) {
    FiveBounded(a, j, k) && Below(a.gst, j + i, k + 2 + i)
  }

  lemma GstBelow(b: Decimal, e: Decimal, f: Decimal, rate: Decimal, j: nat, k: nat, i: nat)
    requires Below(b, j, k) && Below(e, j, k) && Below(f, j, k) && Below(rate, i, i)
    ensures Below(Mul(GstBase(b, e, f), rate), j + i, k + 2 + i)
  {
    AddBelow(b, e, j, k);
    WidenBelow(f, j, k, j, k + 1);
    AddBelow(Add(b, e), f, j, k + 1);
    MulBelow(GstBase(b, e, f), rate, j, i, k + 2, i);
  }

  lemma ZeroBelowAny(j: nat, k: nat)
    ensures Below(ZERO_AMOUNT, j, k)
  {
    ZeroAt(j);
  }

  /** A turnover times a rate, at scale `m` and bound `n`. */
  lemma RateBelow(t: Decimal, rate: Decimal, j: nat, k: nat, i: nat, m: nat, n: nat)
    requires Below(t, j, k) && Below(rate, i, i) && m == j + i && n == k + i
    ensures Below(Mul(t, rate), m, n)
  {
    MulBelow(t, rate, j, i, k, i);
  }

  lemma ClampBelow(v: Decimal, min: Decimal, max: Decimal, m: nat, n: nat)
    requires Below(v, m, n) && Below(min, m, n) && Below(max, m, n)
    ensures Below(Clamp(v, min, max), m, n)
  {
  }

  lemma FiveBelow(r: ChargeRate, side: T.Side, t: Decimal, j: nat, k: nat, i: nat, w: nat, m: nat, n: nat)
    requires RowBounded(r, i, w) && Below(t, j, k) && w + j <= k + i && m == j + i && n == k + i
    ensures FiveBounded(AmountsFor(r, side, t), m, n)
  {
    RateBelow(t, r.brokerageRate, j, k, i, m, n);
    WidenBelow(r.brokerageMin, i, w, m, n);
    WidenBelow(r.brokerageMax, i, w, m, n);
    ClampBelow(Mul(t, r.brokerageRate), r.brokerageMin, r.brokerageMax, m, n);
    RateBelow(t, if side == T.BUY then r.sttBuyRate else r.sttSellRate, j, k, i, m, n);
    RateBelow(t, r.exchangeFeeRate, j, k, i, m, n);
    RateBelow(t, r.sebiFeeRate, j, k, i, m, n);
    RateBelow(t, r.stampDutyBuyRate, j, k, i, m, n);
    ZeroBelowAny(m, n);
  }

  lemma GstOfBelow(a: Amounts, rate: Decimal, j: nat, k: nat, i: nat)
    requires FiveBounded(a, j, k) && Below(rate, i, i)
    requires a.gst == Mul(GstBase(a.brokerage, a.exchangeFee, a.sebiFee), rate)
    ensures AmountsBounded(a, j, k, i)
  {
    GstBelow(a.brokerage, a.exchangeFee, a.sebiFee, rate, j, k, i);
  }

  lemma PaiseBounded(a: Amounts, j: nat, k: nat, i: nat, n: nat)
    requires AmountsBounded(a, j, k, i) && j >= 2 && k + 2 <= n + (j - 2)
    ensures AllPaise(a, n + 1) && AllFine(a, j + i)
  {
    PaiseBelow(a.brokerage, j, k, n);
    PaiseBelow(a.stt, j, k, n);
    PaiseBelow(a.exchangeFee, j, k, n);
    PaiseBelow(a.sebiFee, j, k, n);
    PaiseBelow(a.stamp, j, k, n);
    PaiseBelow(a.gst, j + i, k + 2 + i, n);
  }

  lemma TotalOfFill(tradeId: Text, r: ChargeRate, side: T.Side, t: Decimal, k: nat)
    requires RowCanonical(r) && AllPaise(AmountsFor(r, side, t), k) && 0 < k && k + 1 < PRECISION
    ensures var total := Total(LinesOf(tradeId, AmountsFor(r, side, t)));
            total.scale <= 2 && At(total, 2) == PaiseSum(AmountsFor(r, side, t))
  {
    AmountsCanonical(r, side, t);
    TotalIsSum(tradeId, AmountsFor(r, side, t), k);
  }

  /** What rounding asks of a fill: paise of fewer than 39 digits, and a scale for all amounts. */
  predicate FillFits(a: Amounts, k: nat, j: nat) {
    AllPaise(a, k) && AllFine(a, j) && 0 < k && k + 1 < PRECISION && j >= 2
  }

  lemma BoundedFits(a: Amounts, rate: Decimal, j: nat, k: nat, i: nat, p: nat, q: nat)
    requires FiveBounded(a, j, k) && Below(rate, i, i) && j >= 2 && k + 5 <= p + j && p + 1 < PRECISION && p >= 1
    requires a.gst == Mul(GstBase(a.brokerage, a.exchangeFee, a.sebiFee), rate) && q == j + i
    ensures FillFits(a, p, q)
  {
    GstOfBelow(a, rate, j, k, i);
    PaiseBounded(a, j, k, i, p - 1);
  }

  lemma GstShape(r: ChargeRate, side: T.Side, t: Decimal)
    ensures var a := AmountsFor(r, side, t);
            a.gst == Mul(GstBase(a.brokerage, a.exchangeFee, a.sebiFee), r.gstRate)
  {
  }

  lemma FillFitsAt(r: ChargeRate, side: T.Side, t: Decimal, m: nat, n: nat, i: nat, p: nat, q: nat)
    requires FiveBounded(AmountsFor(r, side, t), m, n) && Below(r.gstRate, i, i)
    requires m >= 2 && n + 5 <= p + m && p + 1 < PRECISION && p >= 1 && q == m + i
    ensures FillFits(AmountsFor(r, side, t), p, q)
  {
    GstShape(r, side, t);
    BoundedFits(AmountsFor(r, side, t), r.gstRate, m, n, i, p, q);
  }

  /** All turnovers of at most 10^33 fit, so that quantity and price columns are covered, although
      products of that size have more than 40 digits and are themselves rounded. */
  lemma LargeFillsFit(r: ChargeRate, side: T.Side, t: Decimal, j: nat, k: nat, i: nat, w: nat, p: nat, q: nat)
    requires RowBounded(r, i, w) && Below(t, j, k) && w + j <= k + i
    requires j + i >= 2 && j <= k <= j + 33 && p == k - j + 5 && q == j + i + i
    ensures FillFits(AmountsFor(r, side, t), p, q)
  {
    var m, n := j + i, k + i;
    FiveBelow(r, side, t, j, k, i, w, m, n);
    FillFitsAt(r, side, t, m, n, i, p, q);
  }

  /** Wherever fills fit, the total lies within three paise of the sum of the unrounded amounts that
      were computed. */
  lemma TotalNearAmounts(tradeId: Text, r: ChargeRate, side: T.Side, t: Decimal, k: nat, j: nat)
    requires RowCanonical(r) && FillFits(AmountsFor(r, side, t), k, j)
    ensures var a := AmountsFor(r, side, t); var total := Total(LinesOf(tradeId, a));
            total.scale <= 2 && WithinThree(a, j, At(total, 2))
  {
    var a := AmountsFor(r, side, t);
    TotalOfFill(tradeId, r, side, t, k);
    SixRoundings(a, j, At(Total(LinesOf(tradeId, a)), 2));
  }

  // ----- The rows of the table -----

  lemma PowersOfTen()
    ensures Pow10(1) == 10 && Pow10(2) == 100 && Pow10(3) == 1000 && Pow10(4) == 10000
    ensures Pow10(5) == 100000 && Pow10(6) == 1000000 && Pow10(7) == 10000000
  {
    assert Pow10(1) == 10 * Pow10(0);
  }

  /** Small fractions below one fit whatever their number of decimals. */
  lemma FractionFits(mag: nat, scale: nat, k: nat)
    requires scale <= k && ((scale == 0 && mag == 0) || (scale >= 2 && mag < 100) || (scale >= 4 && mag < 10000))
    ensures Within(Exact(mag, scale), k, k)
  {
    PowersOfTen();
    if scale >= 2 { Pow10Monotone(2, scale); }
    if scale >= 4 { Pow10Monotone(4, scale); }
    Pow10Add(scale, k - scale);
    TimesOrder(0, mag, Pow10(k - scale));
    TimesOrder(Pow10(scale), mag, Pow10(k - scale));
  }

  lemma BoundFits(mag: nat)
    requires mag < 100
    ensures Within(Exact(mag, 0), 7, 16)
  {
    PowersOfTen();
    ProductBound(mag, Pow10(7) - 1, 100, Pow10(7));
    Pow10Add(2, 7);
    Pow10Monotone(9, 16);
    TimesOrder(0, mag, Pow10(7));
    TimesOrder(mag, 100, Pow10(7));
    TimesOrder(100, mag, Pow10(7));
  }

  lemma GstRateFits(r: ChargeRate)
    requires r.gstRate == Exact(18, 2)
    ensures Within(r.gstRate, 4, 4) && 3 * At(r.gstRate, 4) < 20000
  {
    FractionFits(18, 2, 4);
    PowersOfTen();
  }

  predicate RowGood(r: ChargeRate) {
    RowFits(r) && RowCanonical(r) && InOrder(r.brokerageMin, r.brokerageMax) && 3 * At(r.gstRate, 4) < 20000
  }

  lemma CappedInOrder()
    ensures InOrder(Exact(0, 0), Exact(20, 0))
  {
    assert Compare(Exact(0, 0), Exact(20, 0)) == 0 - 20;
  }

  lemma DeliveryFits()
    ensures RowGood(CHARGE_RATES[0])
  {
    FractionFits(0, 0, 7);
    FractionFits(1, 3, 7);
    FractionFits(297, 7, 7);
    FractionFits(1, 6, 7);
    FractionFits(15, 5, 7);
    BoundFits(0);
    GstRateFits(CHARGE_RATES[0]);
  }

  lemma IntradayFits()
    ensures RowGood(CHARGE_RATES[1])
  {
    FractionFits(3, 4, 7);
    FractionFits(0, 0, 7);
    FractionFits(25, 5, 7);
    FractionFits(297, 7, 7);
    FractionFits(1, 6, 7);
    FractionFits(3, 5, 7);
    BoundFits(0);
    BoundFits(20);
    GstRateFits(CHARGE_RATES[1]);
    CappedInOrder();
  }

  lemma FuturesFit()
    ensures RowGood(CHARGE_RATES[2])
  {
    FractionFits(3, 4, 7);
    FractionFits(0, 0, 7);
    FractionFits(2, 4, 7);
    FractionFits(173, 7, 7);
    FractionFits(1, 6, 7);
    FractionFits(2, 5, 7);
    BoundFits(0);
    BoundFits(20);
    GstRateFits(CHARGE_RATES[2]);
    CappedInOrder();
  }

  lemma OptionsFit()
    ensures RowGood(CHARGE_RATES[3])
  {
    FractionFits(0, 0, 7);
    FractionFits(1, 3, 7);
    FractionFits(3503, 7, 7);
    FractionFits(1, 6, 7);
    FractionFits(3, 5, 7);
    BoundFits(20);
    GstRateFits(CHARGE_RATES[3]);
  }

  lemma FitsNonNegative(r: ChargeRate)
    requires RowFits(r)
    ensures RowNonNegative(r)
  {
    CoefSign(r.brokerageRate, 7);
    CoefSign(r.brokerageMin, 7);
    CoefSign(r.brokerageMax, 7);
    CoefSign(r.sttBuyRate, 7);
    CoefSign(r.sttSellRate, 7);
    CoefSign(r.exchangeFeeRate, 7);
    CoefSign(r.sebiFeeRate, 7);
    CoefSign(r.stampDutyBuyRate, 7);
    CoefSign(r.gstRate, 4);
  }

  lemma FitsBounded(r: ChargeRate)
    requires RowFits(r)
    ensures RowBounded(r, 7, 16)
  {
    FitsNonNegative(r);
    WidenBelow(r.gstRate, 4, 4, 7, 7);
  }

  /** Every row of the table meets what the results on charges ask of a row. */
  lemma RowsGood(r: ChargeRate)
    requires r in CHARGE_RATES
    ensures RowGood(r) && RowNonNegative(r) && RowBounded(r, 7, 16)
  {
    DeliveryFits();
    IntradayFits();
    FuturesFit();
    OptionsFit();
    FitsNonNegative(r);
    FitsBounded(r);
  }
}
