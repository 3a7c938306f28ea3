/** Itemised charges of a fill, and how far rounding each line can move their total. */
module Charges {
  import opened Texts
  import opened Digits
  import opened Decimals
  import opened Money
  import C = Canonical
  import M = MoneyText
  import T = Trades

  datatype Segment = EQ_DELIVERY | EQ_INTRADAY | FUT | OPT

  datatype ChargeType = BROKERAGE | STT | EXCHANGE_FEE | SEBI_FEE | STAMP_DUTY | GST

  /** One row of rates; `effectiveFrom` counts days. */
  datatype ChargeRate = ChargeRate(
    effectiveFrom: int,
    segment: Segment,
    brokerageRate: Decimal,
    brokerageMin: Decimal,
    brokerageMax: Decimal,
    sttBuyRate: Decimal,
    sttSellRate: Decimal,
    exchangeFeeRate: Decimal,
    sebiFeeRate: Decimal,
    stampDutyBuyRate: Decimal,
    gstRate: Decimal)

  datatype Fill = Fill(tradeId: Text, side: T.Side, quantity: Text, price: Text, executedAt: int, segment: Segment)

  datatype Line = Line(tradeId: Text, chargeType: ChargeType, amount: Text)

  function Exact(mag: nat, scale: nat): Decimal {
    Decimal(false, mag, scale)
  }

  const ZERO_AMOUNT: Decimal := Exact(0, 0)

  /** 2024-10-01, in days since 1970-01-01. */
  const FIRST_RATES: int := 19997

  const CHARGE_RATES: seq<ChargeRate> :=
    [ChargeRate(FIRST_RATES, EQ_DELIVERY, Exact(0, 0), Exact(0, 0), Exact(0, 0), Exact(1, 3), Exact(1, 3),
                Exact(297, 7), Exact(1, 6), Exact(15, 5), Exact(18, 2)),
     ChargeRate(FIRST_RATES, EQ_INTRADAY, Exact(3, 4), Exact(0, 0), Exact(20, 0), Exact(0, 0), Exact(25, 5),
                Exact(297, 7), Exact(1, 6), Exact(3, 5), Exact(18, 2)),
     ChargeRate(FIRST_RATES, FUT, Exact(3, 4), Exact(0, 0), Exact(20, 0), Exact(0, 0), Exact(2, 4),
                Exact(173, 7), Exact(1, 6), Exact(2, 5), Exact(18, 2)),
     ChargeRate(FIRST_RATES, OPT, Exact(0, 0), Exact(20, 0), Exact(20, 0), Exact(0, 0), Exact(1, 3),
                Exact(3503, 7), Exact(1, 6), Exact(3, 5), Exact(18, 2))]

  // ----- The rate in force -----

  predicate Applies(r: ChargeRate, segment: Segment, day: int) {
    r.segment == segment && r.effectiveFrom <= day
  }

  /** The applicable row that came into force last; of several, the first in the table. */
  function ActiveRate(rates: seq<ChargeRate>, segment: Segment, day: int): (r: C.Result<ChargeRate>)
    ensures r.TypeError? <==> forall x | x in rates :: !Applies(x, segment, day)
    ensures r.Ok? ==> r.value in rates && Applies(r.value, segment, day)
    ensures r.Ok? ==> forall x | x in rates && Applies(x, segment, day) :: x.effectiveFrom <= r.value.effectiveFrom
  {
    if rates == [] then C.TypeError
    else
      var later := ActiveRate(rates[1..], segment, day);
      if !Applies(rates[0], segment, day) then later
      else if later.Ok? && later.value.effectiveFrom > rates[0].effectiveFrom then later
      else C.Ok(rates[0])
  }

  // ----- The unrounded amounts -----

  datatype Amounts = Amounts(
    brokerage: Decimal,
    stt: Decimal,
    exchangeFee: Decimal,
    sebiFee: Decimal,
    stamp: Decimal,
    gst: Decimal)

  /** Not below `min`, and not above `max` unless that is zero. */
  function Clamp(value: Decimal, min: Decimal, max: Decimal): Decimal {
    if Compare(value, min) < 0 then min
    else if Compare(max, ZERO_AMOUNT) > 0 && Compare(value, max) > 0 then max
    else value
  }

  function GstBase(brokerage: Decimal, exchangeFee: Decimal, sebiFee: Decimal): Decimal {
    Add(Add(brokerage, exchangeFee), sebiFee)
  }

  function AmountsFor(r: ChargeRate, side: T.Side, turnover: Decimal): Amounts {
    var brokerage := Clamp(Mul(turnover, r.brokerageRate), r.brokerageMin, r.brokerageMax);
    var exchangeFee := Mul(turnover, r.exchangeFeeRate);
    var sebiFee := Mul(turnover, r.sebiFeeRate);
    Amounts(
      brokerage,
      Mul(turnover, if side == T.BUY then r.sttBuyRate else r.sttSellRate),
      exchangeFee,
      sebiFee,
      if side == T.BUY then Mul(turnover, r.stampDutyBuyRate) else ZERO_AMOUNT,
      Mul(GstBase(brokerage, exchangeFee, sebiFee), r.gstRate))
  }

  // ----- The lines -----

  function LineOf(tradeId: Text, chargeType: ChargeType, amount: Decimal): Line {
    Line(tradeId, chargeType, M.Print(Round(amount, 2)))
  }

  /** A line, unless the unrounded amount is zero. */
  function Optional(tradeId: Text, chargeType: ChargeType, amount: Decimal): seq<Line> {
    if IsZero(amount) then [] else [LineOf(tradeId, chargeType, amount)]
  }

  function LinesOf(tradeId: Text, a: Amounts): seq<Line> {
    Optional(tradeId, BROKERAGE, a.brokerage) + Optional(tradeId, STT, a.stt)
    + Optional(tradeId, EXCHANGE_FEE, a.exchangeFee) + Optional(tradeId, SEBI_FEE, a.sebiFee)
    + Optional(tradeId, STAMP_DUTY, a.stamp) + Optional(tradeId, GST, a.gst)
  }

  function LinesFor(rates: seq<ChargeRate>, fill: Fill): C.Result<seq<Line>> {
    var r, q, p := ActiveRate(rates, fill.segment, fill.executedAt), M.Parse(fill.quantity), M.Parse(fill.price);
    if r.TypeError? || q.TypeError? || p.TypeError? then C.TypeError
    else C.Ok(LinesOf(fill.tradeId, AmountsFor(r.value, fill.side, Mul(q.value, p.value))))
  }

  method PushLine(lines: seq<Line>, tradeId: Text, chargeType: ChargeType, amount: Decimal) returns (r: seq<Line>)
    ensures r == lines + Optional(tradeId, chargeType, amount)
  {
    r := lines;
    if !IsZero(amount) {
      r := r + [LineOf(tradeId, chargeType, amount)];
    }
  }

  method ComputeAmounts(rate: ChargeRate, side: T.Side, turnover: Decimal) returns (a: Amounts)
    ensures a == AmountsFor(rate, side, turnover)
  {
    var brokerage := Clamp(Mul(turnover, rate.brokerageRate), rate.brokerageMin, rate.brokerageMax);
    var stt := Mul(turnover, if side == T.BUY then rate.sttBuyRate else rate.sttSellRate);
    var exchangeFee := Mul(turnover, rate.exchangeFeeRate);
    var sebiFee := Mul(turnover, rate.sebiFeeRate);
    var stamp := if side == T.BUY then Mul(turnover, rate.stampDutyBuyRate) else ZERO_AMOUNT;
    var gst := Mul(GstBase(brokerage, exchangeFee, sebiFee), rate.gstRate);
    return Amounts(brokerage, stt, exchangeFee, sebiFee, stamp, gst);
  }

  method EmitLines(tradeId: Text, a: Amounts) returns (lines: seq<Line>)
    ensures lines == LinesOf(tradeId, a)
  {
    lines := [];
    lines := PushLine(lines, tradeId, BROKERAGE, a.brokerage);
    assert [] + Optional(tradeId, BROKERAGE, a.brokerage) == Optional(tradeId, BROKERAGE, a.brokerage);
    lines := PushLine(lines, tradeId, STT, a.stt);
    lines := PushLine(lines, tradeId, EXCHANGE_FEE, a.exchangeFee);
    lines := PushLine(lines, tradeId, SEBI_FEE, a.sebiFee);
    lines := PushLine(lines, tradeId, STAMP_DUTY, a.stamp);
    lines := PushLine(lines, tradeId, GST, a.gst);
  }

  method ComputeForFill(rates: seq<ChargeRate>, fill: Fill) returns (r: C.Result<seq<Line>>)
    ensures r == LinesFor(rates, fill)
  {
    var rate := ActiveRate(rates, fill.segment, fill.executedAt);
    if rate.TypeError? {
      return C.TypeError;
    }
    var q, p := M.Parse(fill.quantity), M.Parse(fill.price);
    if q.TypeError? || p.TypeError? {
      return C.TypeError;
    }
    var turnover := Mul(q.value, p.value);
    var amounts := ComputeAmounts(rate.value, fill.side, turnover);
    var lines := EmitLines(fill.tradeId, amounts);
    return C.Ok(lines);
  }

  function AmountOf(l: Line): Decimal {
    if M.Parse(l.amount).Ok? then M.Parse(l.amount).value else ZERO_AMOUNT
  }

  function Total(lines: seq<Line>): Decimal {
    if lines == [] then ZERO_AMOUNT else Add(Total(lines[..|lines| - 1]), AmountOf(lines[|lines| - 1]))
  }

  predicate AllReadable(lines: seq<Line>) {
    forall l | l in lines :: M.Parse(l.amount).Ok?
  }

  /** The reduce of `totalFor`. */
  method TotalFor(lines: seq<Line>) returns (acc: Decimal)
    requires AllReadable(lines)
    ensures acc == Total(lines)
  {
    acc := ZERO_AMOUNT;
    for i := 0 to |lines|
      invariant acc == Total(lines[..i])
    {
      assert lines[..i + 1][..i] == lines[..i];
      acc := Add(acc, M.Parse(lines[i].amount).value);
    }
    assert lines[..|lines|] == lines;
  }

  // ----- Clamping -----

  /** Clamping keeps order exactly if the floor is not above a ceiling that is in force. */
  predicate InOrder(min: Decimal, max: Decimal) {
    Compare(min, max) <= 0 || Compare(max, ZERO_AMOUNT) <= 0
  }

  lemma TimesOrder(x: int, y: int, p: nat)
    requires p > 0
    ensures x <= y <==> x * p <= y * p
  {
    if x <= y { MulMonotone(x, y, p); }
    if y < x { MulPositive(x - y, p); assert (x - y) * p == x * p - y * p; }
  }

  lemma CompareAt(a: Decimal, b: Decimal, j: nat)
    requires a.scale <= j && b.scale <= j
    ensures Compare(a, b) <= 0 <==> At(a, j) <= At(b, j)
    ensures Compare(a, b) < 0 <==> At(a, j) < At(b, j)
  {
    var k := Max(a.scale, b.scale);
    AtRescale(a, k, j);
    AtRescale(b, k, j);
    TimesOrder(At(a, k), At(b, k), Pow10(j - k));
    TimesOrder(At(b, k), At(a, k), Pow10(j - k));
  }

  lemma ClampOrder(v: Decimal, w: Decimal, min: Decimal, max: Decimal)
    requires Compare(v, w) <= 0 && InOrder(min, max)
    ensures Compare(Clamp(v, min, max), Clamp(w, min, max)) <= 0
  {
    var j := Max(Max(v.scale, w.scale), Max(min.scale, max.scale));
    CompareAt(v, w, j);
    CompareAt(v, min, j);
    CompareAt(w, min, j);
    CompareAt(min, max, j);
    CompareAt(max, v, j);
    CompareAt(max, w, j);
    CompareAt(max, ZERO_AMOUNT, j);
    CompareAt(Clamp(v, min, max), Clamp(w, min, max), j);
    Antisymmetric(max, v);
    Antisymmetric(max, w);
  }

  lemma Antisymmetric(a: Decimal, b: Decimal)
    ensures Compare(a, b) == 0 - Compare(b, a)
  {
  }

  /** Otherwise it does not: from zero to the floor, the clamped value falls. */
  lemma ClampMonotoneExactly(min: Decimal, max: Decimal)
    ensures InOrder(min, max)
            <==> forall v: Decimal, w: Decimal :: Compare(v, w) <= 0 ==>
                   Compare(Clamp(v, min, max), Clamp(w, min, max)) <= 0
  {
    if InOrder(min, max) {
      forall v: Decimal, w: Decimal | Compare(v, w) <= 0
        ensures Compare(Clamp(v, min, max), Clamp(w, min, max)) <= 0
      {
        ClampOrder(v, w, min, max);
      }
    } else {
      var j := Max(min.scale, max.scale);
      CompareAt(min, max, j);
      CompareAt(max, min, j);
      CompareAt(ZERO_AMOUNT, max, j);
      CompareAt(max, ZERO_AMOUNT, j);
      CompareAt(ZERO_AMOUNT, min, j);
      Antisymmetric(max, min);
      assert Compare(min, min) == 0;
      assert Clamp(ZERO_AMOUNT, min, max) == min && Clamp(min, min, max) == max;
      assert Compare(ZERO_AMOUNT, min) <= 0 && Compare(min, max) > 0;
    }
  }
}
