/** Charges grow with the turnover: for every turnover that is not negative, also where products
    have more than 40 digits and are rounded. */
module ChargeOrder {
  import opened Texts
  import opened Digits
  import opened Decimals
  import opened Money
  import opened Charges
  import opened Significance
  import M = MoneyText
  import T = Trades

  predicate AtMost(a: Decimal, b: Decimal) {
    NonNegative(a) && NonNegative(b) && Compare(a, b) <= 0
  }

  // ----- Monotone arithmetic -----

  lemma MulOrder(a: Decimal, b: Decimal, c: Decimal)
    requires AtMost(a, b) && NonNegative(c)
    ensures AtMost(Mul(a, c), Mul(b, c))
  {
    var i, j := Max(a.scale, b.scale), c.scale;
    var x, y := At(a, i) * At(c, j), At(b, i) * At(c, j);
    CompareAt(a, b, i);
    MulAt(a, c, i, j, x);
    MulAt(b, c, i, j, y);
    AtNonNegative(c, j);
    MulMonotone(At(a, i), At(b, i), At(c, j));
    SigMonotone(x, y);
    CompareAt(Mul(a, c), Mul(b, c), i + j);
  }

  lemma AddOrder(a: Decimal, b: Decimal, c: Decimal, d: Decimal)
    requires AtMost(a, b) && AtMost(c, d)
    ensures AtMost(Add(a, c), Add(b, d))
  {
    var j := Max(Max(a.scale, b.scale), Max(c.scale, d.scale));
    CompareAt(a, b, j);
    CompareAt(c, d, j);
    SumAt(a, c, j);
    SumAt(b, d, j);
    SigMonotone(At(a, j) + At(c, j), At(b, j) + At(d, j));
    CompareAt(Add(a, c), Add(b, d), j);
  }

  lemma RoundOrder(a: Decimal, b: Decimal, k: nat)
    requires AtMost(a, b)
    ensures AtMost(Round(a, k), Round(b, k))
  {
    RoundNonNegative(a, k);
    RoundNonNegative(b, k);
    RoundMonotone(a, b, k);
    CompareAt(Round(a, k), Round(b, k), k);
  }

  lemma RoundNonNegative(a: Decimal, k: nat)
    requires NonNegative(a)
    ensures NonNegative(Round(a, k))
  {
    if a.scale > k {
      assert a.neg ==> a.mag == 0 && HalfEven(0, Pow10(a.scale - k)) == 0;
      MakeNonNegative(a.neg, HalfEven(a.mag, Pow10(a.scale - k)), k, k);
    }
  }

  /** Already rounded to 40 digits. */
  predicate Settled(d: Decimal) {
    NonNegative(d) && SigInt(d.mag) == d.mag
  }

  lemma SettledAt(d: Decimal, j: nat)
    requires NonNegative(d) && d.scale <= j
    ensures At(d, j) >= 0 && (Settled(d) <==> SigInt(At(d, j)) == At(d, j))
  {
    AtNonNegative(d, j);
    SigScale(d.mag, j - d.scale);
    if SigInt(At(d, j)) == At(d, j) {
      CancelFactor(SigInt(d.mag), d.mag, Pow10(j - d.scale));
    }
  }

  lemma AddSettled(a: Decimal, b: Decimal)
    requires NonNegative(a) && NonNegative(b)
    ensures Settled(Add(a, b))
  {
    var j := Max(a.scale, b.scale);
    SumAt(a, b, j);
    SigIdempotent(At(a, j) + At(b, j));
    SettledAt(Add(a, b), j);
  }

  lemma AddGrows(a: Decimal, b: Decimal)
    requires Settled(a) && NonNegative(b)
    ensures AtMost(a, Add(a, b))
  {
    var j := Max(a.scale, b.scale);
    SumAt(a, b, j);
    SettledAt(a, j);
    SigMonotone(At(a, j), At(a, j) + At(b, j));
    CompareAt(a, Add(a, b), j);
  }

  lemma AtMostTransitive(a: Decimal, b: Decimal, c: Decimal)
    requires AtMost(a, b) && AtMost(b, c)
    ensures AtMost(a, c)
  {
    var j := Max(Max(a.scale, b.scale), c.scale);
    CompareAt(a, b, j);
    CompareAt(b, c, j);
    CompareAt(a, c, j);
  }

  // ----- The amounts -----

  predicate RowNonNegative(r: ChargeRate) {
    && NonNegative(r.brokerageRate) && NonNegative(r.brokerageMin) && NonNegative(r.brokerageMax)
    && NonNegative(r.sttBuyRate) && NonNegative(r.sttSellRate) && NonNegative(r.exchangeFeeRate)
    && NonNegative(r.sebiFeeRate) && NonNegative(r.stampDutyBuyRate) && NonNegative(r.gstRate)
  }

  lemma ClampAtMost(v: Decimal, w: Decimal, min: Decimal, max: Decimal)
    requires AtMost(v, w) && NonNegative(min) && NonNegative(max) && InOrder(min, max)
    ensures AtMost(Clamp(v, min, max), Clamp(w, min, max))
  {
    ClampOrder(v, w, min, max);
  }

  predicate AmountsAtMost(a: Amounts, b: Amounts) {
    && AtMost(a.brokerage, b.brokerage) && AtMost(a.stt, b.stt) && AtMost(a.exchangeFee, b.exchangeFee)
    && AtMost(a.sebiFee, b.sebiFee) && AtMost(a.stamp, b.stamp) && AtMost(a.gst, b.gst)
  }

  lemma GstAtMost(a: Amounts, b: Amounts, rate: Decimal)
    requires AtMost(a.brokerage, b.brokerage) && AtMost(a.exchangeFee, b.exchangeFee) && AtMost(a.sebiFee, b.sebiFee)
    requires NonNegative(rate)
    ensures AtMost(Mul(GstBase(a.brokerage, a.exchangeFee, a.sebiFee), rate),
                   Mul(GstBase(b.brokerage, b.exchangeFee, b.sebiFee), rate))
  {
    AddOrder(a.brokerage, b.brokerage, a.exchangeFee, b.exchangeFee);
    AddOrder(Add(a.brokerage, a.exchangeFee), Add(b.brokerage, b.exchangeFee), a.sebiFee, b.sebiFee);
    MulOrder(GstBase(a.brokerage, a.exchangeFee, a.sebiFee), GstBase(b.brokerage, b.exchangeFee, b.sebiFee), rate);
  }

  lemma AmountsOrder(r: ChargeRate, side: T.Side, t: Decimal, u: Decimal)
    requires RowNonNegative(r) && InOrder(r.brokerageMin, r.brokerageMax) && AtMost(t, u)
    ensures AmountsAtMost(AmountsFor(r, side, t), AmountsFor(r, side, u))
  {
    MulOrder(t, u, r.brokerageRate);
    ClampAtMost(Mul(t, r.brokerageRate), Mul(u, r.brokerageRate), r.brokerageMin, r.brokerageMax);
    MulOrder(t, u, if side == T.BUY then r.sttBuyRate else r.sttSellRate);
    MulOrder(t, u, r.exchangeFeeRate);
    MulOrder(t, u, r.sebiFeeRate);
    MulOrder(t, u, r.stampDutyBuyRate);
    assert AtMost(ZERO_AMOUNT, ZERO_AMOUNT);
    GstAtMost(AmountsFor(r, side, t), AmountsFor(r, side, u), r.gstRate);
  }

  // ----- The total -----

  predicate TotalsAtMost(a: seq<Line>, b: seq<Line>) {
    Settled(Total(a)) && Settled(Total(b)) && AtMost(Total(a), Total(b))
  }

  lemma LineValue(tradeId: Text, chargeType: ChargeType, x: Decimal)
    requires Decimals.Canonical(x) && NonNegative(x)
    ensures AmountOf(LineOf(tradeId, chargeType, x)) == M.Plain(Round(x, 2))
    ensures NonNegative(M.Plain(Round(x, 2)))
  {
    M.ParsePrint(Round(x, 2));
    RoundNonNegative(x, 2);
  }

  lemma PlainOrder(a: Decimal, b: Decimal)
    requires AtMost(a, b)
    ensures AtMost(M.Plain(a), M.Plain(b))
  {
    var j := Max(a.scale, b.scale);
    CompareAt(a, b, j);
    CompareAt(M.Plain(a), M.Plain(b), j);
  }

  lemma LineAdds(lines: seq<Line>, l: Line)
    ensures Total(lines + [l]) == Add(Total(lines), AmountOf(l))
  {
    assert (lines + [l])[..|lines|] == lines;
  }

  lemma TotalWithLine(lines: seq<Line>, tradeId: Text, chargeType: ChargeType, x: Decimal)
    requires Settled(Total(lines)) && Decimals.Canonical(x) && NonNegative(x)
    ensures var total := Total(lines + [LineOf(tradeId, chargeType, x)]); var p := M.Plain(Round(x, 2));
            NonNegative(p) && total == Add(Total(lines), p) && Settled(total) && AtMost(Total(lines), total)
  {
    LineValue(tradeId, chargeType, x);
    LineAdds(lines, LineOf(tradeId, chargeType, x));
    AddSettled(Total(lines), M.Plain(Round(x, 2)));
    AddGrows(Total(lines), M.Plain(Round(x, 2)));
  }

  lemma BothLines(a: seq<Line>, b: seq<Line>, l: Line, m: Line, x: Decimal, y: Decimal)
    requires TotalsAtMost(a, b) && AtMost(x, y)
    requires Total(a + [l]) == Add(Total(a), M.Plain(Round(x, 2))) && Settled(Total(a + [l]))
    requires Total(b + [m]) == Add(Total(b), M.Plain(Round(y, 2))) && Settled(Total(b + [m]))
    ensures TotalsAtMost(a + [l], b + [m])
  {
    RoundOrder(x, y, 2);
    PlainOrder(Round(x, 2), Round(y, 2));
    AddOrder(Total(a), Total(b), M.Plain(Round(x, 2)), M.Plain(Round(y, 2)));
  }

  /** One more amount on both sides, each left out if it is zero. */
  lemma TotalsStep(a: seq<Line>, b: seq<Line>, tradeId: Text, other: Text, chargeType: ChargeType, x: Decimal, y: Decimal)
    requires TotalsAtMost(a, b) && AtMost(x, y) && Decimals.Canonical(x) && Decimals.Canonical(y)
    ensures TotalsAtMost(a + Optional(tradeId, chargeType, x), b + Optional(other, chargeType, y))
  {
    assert a + [] == a && b + [] == b;
    if IsZero(y) {
      ZeroBelow(x, y);
    } else {
      var l, m := LineOf(tradeId, chargeType, x), LineOf(other, chargeType, y);
      TotalWithLine(b, other, chargeType, y);
      if IsZero(x) {
        AtMostTransitive(Total(a), Total(b), Total(b + [m]));
      } else {
        TotalWithLine(a, tradeId, chargeType, x);
        BothLines(a, b, l, m, x, y);
      }
    }
  }

  lemma ZeroBelow(x: Decimal, y: Decimal)
    requires AtMost(x, y) && IsZero(y)
    ensures IsZero(x)
  {
    var j := Max(x.scale, y.scale);
    AtNonNegative(x, j);
    AtNonNegative(y, j);
    if x.mag > 0 {
      MulPositive(x.mag, Pow10(j - x.scale));
    }
  }

  predicate AllCanonical(a: Amounts) {
    && Decimals.Canonical(a.brokerage) && Decimals.Canonical(a.stt) && Decimals.Canonical(a.exchangeFee)
    && Decimals.Canonical(a.sebiFee) && Decimals.Canonical(a.stamp) && Decimals.Canonical(a.gst)
  }

  lemma TotalsOrder(tradeId: Text, other: Text, a: Amounts, b: Amounts)
    requires AmountsAtMost(a, b) && AllCanonical(a) && AllCanonical(b)
    ensures TotalsAtMost(LinesOf(tradeId, a), LinesOf(other, b))
  {
    var l, m: seq<Line> := [], [];
    assert SigInt(0) == 0;
    assert l + Optional(tradeId, BROKERAGE, a.brokerage) == Optional(tradeId, BROKERAGE, a.brokerage);
    assert m + Optional(other, BROKERAGE, b.brokerage) == Optional(other, BROKERAGE, b.brokerage);
    TotalsStep(l, m, tradeId, other, BROKERAGE, a.brokerage, b.brokerage);
    l, m := Optional(tradeId, BROKERAGE, a.brokerage), Optional(other, BROKERAGE, b.brokerage);
    TotalsStep(l, m, tradeId, other, STT, a.stt, b.stt);
    l, m := l + Optional(tradeId, STT, a.stt), m + Optional(other, STT, b.stt);
    TotalsStep(l, m, tradeId, other, EXCHANGE_FEE, a.exchangeFee, b.exchangeFee);
    l, m := l + Optional(tradeId, EXCHANGE_FEE, a.exchangeFee), m + Optional(other, EXCHANGE_FEE, b.exchangeFee);
    TotalsStep(l, m, tradeId, other, SEBI_FEE, a.sebiFee, b.sebiFee);
    l, m := l + Optional(tradeId, SEBI_FEE, a.sebiFee), m + Optional(other, SEBI_FEE, b.sebiFee);
    TotalsStep(l, m, tradeId, other, STAMP_DUTY, a.stamp, b.stamp);
    l, m := l + Optional(tradeId, STAMP_DUTY, a.stamp), m + Optional(other, STAMP_DUTY, b.stamp);
    TotalsStep(l, m, tradeId, other, GST, a.gst, b.gst);
  }

  lemma AmountsCanonical(r: ChargeRate, side: T.Side, t: Decimal)
    requires Decimals.Canonical(r.brokerageMin) && Decimals.Canonical(r.brokerageMax)
    ensures AllCanonical(AmountsFor(r, side, t))
  {
  }

  /** A larger turnover is never charged less in total, for every turnover that is not negative and
      every row of rates that are not negative and whose brokerage bounds are in order. */
  lemma TotalMonotone(tradeId: Text, other: Text, r: ChargeRate, side: T.Side, t: Decimal, u: Decimal)
    requires RowNonNegative(r) && InOrder(r.brokerageMin, r.brokerageMax)
    requires Decimals.Canonical(r.brokerageMin) && Decimals.Canonical(r.brokerageMax)
    requires NonNegative(t) && NonNegative(u) && Compare(t, u) <= 0
    ensures Compare(Total(LinesOf(tradeId, AmountsFor(r, side, t))), Total(LinesOf(other, AmountsFor(r, side, u)))) <= 0
  {
    AmountsOrder(r, side, t, u);
    AmountsCanonical(r, side, t);
    AmountsCanonical(r, side, u);
    TotalsOrder(tradeId, other, AmountsFor(r, side, t), AmountsFor(r, side, u));
  }

  /** The turnover of a fill grows with its quantity and its price. */
  lemma TurnoverMonotone(quantity: Decimal, more: Decimal, price: Decimal, higher: Decimal)
    requires AtMost(quantity, more) && AtMost(price, higher)
    ensures AtMost(Mul(quantity, price), Mul(more, higher))
  {
    MulOrder(quantity, more, price);
    MulOrder(price, higher, more);
    MulCommutes(more, price);
    MulCommutes(more, higher);
    AtMostTransitive(Mul(quantity, price), Mul(more, price), Mul(more, higher));
  }

  lemma MulCommutes(a: Decimal, b: Decimal)
    ensures Mul(a, b) == Mul(b, a)
  {
    assert a.mag * b.mag == b.mag * a.mag;
  }
}
