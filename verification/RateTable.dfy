/** The rate table worked out: the row in force for each segment, and what every charge comes to on a
    turnover of one crore. */
module RateTable {
  import opened Decimals
  import opened Charges
  import opened ChargeBounds
  import opened ChargeErrors
  import opened ChargeLines
  import C = Canonical
  import T = Trades

  /** The charges on ten million rupees, in paise. */
  function CroreInPaise(segment: Segment, side: T.Side, c: ChargeType): nat {
    match c
    case BROKERAGE => if segment == EQ_DELIVERY then 0 else 2000
    case STT =>
      (match segment
       case EQ_DELIVERY => 1000000
       case EQ_INTRADAY => if side == T.BUY then 0 else 250000
       case FUT => if side == T.BUY then 0 else 200000
       case OPT => if side == T.BUY then 0 else 1000000)
    case EXCHANGE_FEE =>
      (match segment
       case EQ_DELIVERY => 29700
       case EQ_INTRADAY => 29700
       case FUT => 17300
       case OPT => 350300)
    case SEBI_FEE => 1000
    case STAMP_DUTY =>
      if side != T.BUY then 0
      else (match segment
            case EQ_DELIVERY => 150000
            case EQ_INTRADAY => 30000
            case FUT => 20000
            case OPT => 30000)
    case GST =>
      (match segment
       case EQ_DELIVERY => 5526
       case EQ_INTRADAY => 5886
       case FUT => 3654
       case OPT => 63594)
  }

  /** The brokerage on ten thousand rupees, which reaches no ceiling, in paise. */
  function SmallBrokerage(segment: Segment): nat {
    match segment
    case EQ_DELIVERY => 0
    case EQ_INTRADAY => 300
    case FUT => 300
    case OPT => 2000
  }

  function PositionOf(segment: Segment): (i: nat)
    ensures i < 4
  {
    match segment
    case EQ_DELIVERY => 0
    case EQ_INTRADAY => 1
    case FUT => 2
    case OPT => 3
  }

  /** From 2024-10-01 on there is one row for each segment, and none before. */
  lemma RowInForce(segment: Segment, day: int)
    ensures ActiveRate(CHARGE_RATES, segment, day)
            == if day >= 19997 then C.Ok(CHARGE_RATES[PositionOf(segment)]) else C.TypeError
  {
    var r := CHARGE_RATES[PositionOf(segment)];
    assert r in CHARGE_RATES && r.segment == segment && r.effectiveFrom == 19997;
    assert forall x | x in CHARGE_RATES :: x.effectiveFrom == 19997;
    assert forall x | x in CHARGE_RATES && x.segment == segment :: x == r;
  }

  /** The row in whole numbers: rates in ten-millionths, GST in ten-thousandths. */
  predicate RowIs(r: ChargeRate, brokerage: nat, min: nat, max: nat, buy: nat, sell: nat, exchange: nat, stamp: nat) {
    && RowFits(r)
    && At(r.brokerageRate, 7) == brokerage && At(r.brokerageMin, 7) == min && At(r.brokerageMax, 7) == max
    && At(r.sttBuyRate, 7) == buy && At(r.sttSellRate, 7) == sell && At(r.exchangeFeeRate, 7) == exchange
    && At(r.sebiFeeRate, 7) == 10 && At(r.stampDutyBuyRate, 7) == stamp && At(r.gstRate, 4) == 1800
  }

  lemma Common(r: ChargeRate)
    requires r in CHARGE_RATES
    ensures RowFits(r) && At(r.sebiFeeRate, 7) == 10 && At(r.gstRate, 4) == 1800
  {
    RowsGood(r);
    PowersOfTen();
    AtIs(r.sebiFeeRate, 7, 10);
    AtIs(r.gstRate, 4, 100);
  }

  lemma DeliveryRow()
    ensures RowIs(CHARGE_RATES[0], 0, 0, 0, 10000, 10000, 297, 1500)
  {
    var r := CHARGE_RATES[0];
    Common(r);
    PowersOfTen();
    AtIs(r.brokerageRate, 7, 10000000);
    AtIs(r.sttBuyRate, 7, 10000);
    AtIs(r.exchangeFeeRate, 7, 1);
    AtIs(r.stampDutyBuyRate, 7, 100);
  }

  lemma IntradayRow()
    ensures RowIs(CHARGE_RATES[1], 3000, 0, 200000000, 0, 2500, 297, 300)
  {
    var r := CHARGE_RATES[1];
    Common(r);
    PowersOfTen();
    AtIs(r.brokerageRate, 7, 1000);
    AtIs(r.brokerageMin, 7, 10000000);
    AtIs(r.brokerageMax, 7, 10000000);
    AtIs(r.sttSellRate, 7, 100);
    AtIs(r.exchangeFeeRate, 7, 1);
    AtIs(r.stampDutyBuyRate, 7, 100);
  }

  lemma FuturesRow()
    ensures RowIs(CHARGE_RATES[2], 3000, 0, 200000000, 0, 2000, 173, 200)
  {
    var r := CHARGE_RATES[2];
    Common(r);
    PowersOfTen();
    AtIs(r.brokerageRate, 7, 1000);
    AtIs(r.brokerageMin, 7, 10000000);
    AtIs(r.brokerageMax, 7, 10000000);
    AtIs(r.sttSellRate, 7, 1000);
    AtIs(r.exchangeFeeRate, 7, 1);
    AtIs(r.stampDutyBuyRate, 7, 100);
  }

  lemma OptionsRow()
    ensures RowIs(CHARGE_RATES[3], 0, 200000000, 200000000, 0, 10000, 3503, 300)
  {
    var r := CHARGE_RATES[3];
    Common(r);
    PowersOfTen();
    AtIs(r.brokerageRate, 7, 10000000);
    AtIs(r.brokerageMin, 7, 10000000);
    AtIs(r.sttSellRate, 7, 10000);
    AtIs(r.exchangeFeeRate, 7, 1);
    AtIs(r.stampDutyBuyRate, 7, 100);
  }

  /** What a charge of the table comes to. */
  lemma CroreCharges(segment: Segment, side: T.Side, c: ChargeType)
    ensures var r := CHARGE_RATES[PositionOf(segment)];
            && RowFits(r)
            && ChargeOf(r, side, 10000000, 7, c)
               == CroreInPaise(segment, side, c) * (if c == GST then 1000000000 else 100000)
            && ChargeOf(r, side, 10000, 7, BROKERAGE) == SmallBrokerage(segment) * 100000
  {
    DeliveryRow();
    IntradayRow();
    FuturesRow();
    OptionsRow();
  }
}
