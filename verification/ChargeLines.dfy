/** Which line of a fill carries which charge: every type at most once, there exactly if the charge is
    not zero, with a text that reads back to the charge in paise. */
module ChargeLines {
  import opened Texts
  import opened Digits
  import opened Decimals
  import opened Money
  import opened Charges
  import opened ChargeBounds
  import opened ChargeErrors
  import opened GstLines
  import opened Significance
  import C = Canonical
  import M = MoneyText
  import O = ChargeOrder
  import T = Trades

  // ----- Lines and amounts -----

  function AmountOfType(a: Amounts, c: ChargeType): Decimal {
    match c
    case BROKERAGE => a.brokerage
    case STT => a.stt
    case EXCHANGE_FEE => a.exchangeFee
    case SEBI_FEE => a.sebiFee
    case STAMP_DUTY => a.stamp
    case GST => a.gst
  }

  predicate HasLine(lines: seq<Line>, c: ChargeType) {
    exists l | l in lines :: l.chargeType == c
  }

  predicate OneLineEach(lines: seq<Line>) {
    forall i, j | 0 <= i < j < |lines| :: lines[i].chargeType != lines[j].chargeType
  }

  /** The line of its type, for an amount that is not zero. */
  predicate IsLineFor(l: Line, tradeId: Text, a: Amounts) {
    var amount := AmountOfType(a, l.chargeType);
    l.tradeId == tradeId && !IsZero(amount) && l.amount == M.Print(Round(amount, 2))
  }

  predicate LinesFit(lines: seq<Line>, tradeId: Text, a: Amounts) {
    && OneLineEach(lines) && (forall l | l in lines :: IsLineFor(l, tradeId, a))
    && forall c: ChargeType :: HasLine(lines, c) <==> !IsZero(AmountOfType(a, c))
  }

  function Rank(c: ChargeType): nat {
    match c
    case BROKERAGE => 0
    case STT => 1
    case EXCHANGE_FEE => 2
    case SEBI_FEE => 3
    case STAMP_DUTY => 4
    case GST => 5
  }

  /** The same for the first `k` types. */
  predicate FirstFit(lines: seq<Line>, tradeId: Text, a: Amounts, k: nat) {
    && OneLineEach(lines) && (forall l | l in lines :: IsLineFor(l, tradeId, a) && Rank(l.chargeType) < k)
    && forall c: ChargeType :: HasLine(lines, c) <==> Rank(c) < k && !IsZero(AmountOfType(a, c))
  }

  lemma HasLineSnoc(lines: seq<Line>, l: Line, c: ChargeType)
    ensures HasLine(lines + [l], c) <==> HasLine(lines, c) || l.chargeType == c
  {
    if HasLine(lines, c) {
      var x :| x in lines && x.chargeType == c;
      assert x in lines + [l];
    }
    assert l in lines + [l];
  }

  lemma RankUnique(c: ChargeType, d: ChargeType)
    requires Rank(c) == Rank(d)
    ensures c == d
  {
  }

  lemma OneMore(lines: seq<Line>, tradeId: Text, a: Amounts, c: ChargeType, k: nat)
    requires FirstFit(lines, tradeId, a, k) && Rank(c) == k && !IsZero(AmountOfType(a, c))
    ensures FirstFit(lines + [LineOf(tradeId, c, AmountOfType(a, c))], tradeId, a, k + 1)
  {
    var l := LineOf(tradeId, c, AmountOfType(a, c));
    forall d: ChargeType ensures HasLine(lines + [l], d) <==> Rank(d) < k + 1 && !IsZero(AmountOfType(a, d)) {
      HasLineSnoc(lines, l, d);
      if Rank(d) == k { RankUnique(c, d); }
    }
    forall i, j | 0 <= i < j < |lines| + 1 ensures (lines + [l])[i].chargeType != (lines + [l])[j].chargeType {
      if j == |lines| { assert lines[i] in lines; }
    }
  }

  lemma OptionalFits(lines: seq<Line>, tradeId: Text, a: Amounts, c: ChargeType, k: nat, amount: Decimal)
    requires FirstFit(lines, tradeId, a, k) && Rank(c) == k && amount == AmountOfType(a, c)
    ensures FirstFit(lines + Optional(tradeId, c, amount), tradeId, a, k + 1)
  {
    if IsZero(amount) {
      assert lines + [] == lines;
      forall d: ChargeType ensures HasLine(lines, d) <==> Rank(d) < k + 1 && !IsZero(AmountOfType(a, d)) {
        if Rank(d) == k { RankUnique(c, d); }
      }
    } else {
      OneMore(lines, tradeId, a, c, k);
    }
  }

  /** Every type has one line at most, and it is there exactly if its amount is not zero. */
  lemma TypesInLines(tradeId: Text, a: Amounts)
    ensures LinesFit(LinesOf(tradeId, a), tradeId, a)
  {
    var l1 := Optional(tradeId, BROKERAGE, a.brokerage);
    assert [] + l1 == l1;
    OptionalFits([], tradeId, a, BROKERAGE, 0, a.brokerage);
    var l2 := l1 + Optional(tradeId, STT, a.stt);
    OptionalFits(l1, tradeId, a, STT, 1, a.stt);
    var l3 := l2 + Optional(tradeId, EXCHANGE_FEE, a.exchangeFee);
    OptionalFits(l2, tradeId, a, EXCHANGE_FEE, 2, a.exchangeFee);
    var l4 := l3 + Optional(tradeId, SEBI_FEE, a.sebiFee);
    OptionalFits(l3, tradeId, a, SEBI_FEE, 3, a.sebiFee);
    var l5 := l4 + Optional(tradeId, STAMP_DUTY, a.stamp);
    OptionalFits(l4, tradeId, a, STAMP_DUTY, 4, a.stamp);
    OptionalFits(l5, tradeId, a, GST, 5, a.gst);
  }

  // ----- When a charge is zero -----

  lemma SigZero(m: nat)
    ensures SigInt(m) == 0 <==> m == 0
  {
    if m > 0 { SigRange(m); }
  }

  /** Clamping commutes with rounding to 40 digits, where clamping is steady. */
  lemma ClampCommutes(p: nat, lo: nat, hi: nat)
    requires SigInt(lo) == lo && SigInt(hi) == hi
    requires lo <= hi || hi <= 0 || (p < lo <==> SigInt(p) < lo)
    ensures ClampInt(p, lo, hi) >= 0 && ClampInt(SigInt(p), lo, hi) == SigInt(ClampInt(p, lo, hi))
  {
    if p <= lo { SigMonotone(p, lo); } else { SigMonotone(lo, p); }
    if p <= hi { SigMonotone(p, hi); } else { SigMonotone(hi, p); }
  }

  lemma ZeroAtScale(x: Decimal, j: nat)
    requires x.scale <= j
    ensures IsZero(x) <==> At(x, j) == 0
  {
    AbsAt(x, j);
    if x.mag > 0 { MulPositive(x.mag, Pow10(j - x.scale)); }
  }

  lemma ProductZero(t: Decimal, rate: Decimal, j: nat, product: int)
    requires NonNegative(t) && t.scale <= j && Below(rate, 7, 7) && product == At(t, j) * At(rate, 7)
    ensures IsZero(Mul(t, rate)) <==> product == 0
  {
    RateAt(t, rate, j, product);
    SigZero(product);
    ZeroAtScale(Mul(t, rate), j + 7);
  }

  lemma BrokerageRounded(r: ChargeRate, t: Decimal, j: nat, m: nat, charge: int)
    requires RowFits(r) && RowBounded(r, 7, 16) && NonNegative(t) && t.scale <= j && Steady(r, t, j)
    requires m == j + 7 && charge == BrokerageAt(r, At(t, j), m)
    ensures var b := Clamp(Mul(t, r.brokerageRate), r.brokerageMin, r.brokerageMax);
            charge >= 0 && b.scale <= m && At(b, m) == SigInt(charge)
  {
    var product := At(t, j) * At(r.brokerageRate, 7);
    RateAt(t, r.brokerageRate, j, product);
    FloorSettled(r.brokerageMin, j);
    FloorSettled(r.brokerageMax, j);
    SteadyAt(r, t, j, product, SigInt(product), At(r.brokerageMin, m), At(r.brokerageMax, m));
    ClampedAt(Mul(t, r.brokerageRate), r.brokerageMin, r.brokerageMax, m);
    ClampCommutes(product, At(r.brokerageMin, m), At(r.brokerageMax, m));
  }

  lemma BrokerageZero(r: ChargeRate, t: Decimal, j: nat, m: nat, charge: int)
    requires RowFits(r) && RowBounded(r, 7, 16) && NonNegative(t) && t.scale <= j && Steady(r, t, j)
    requires m == j + 7 && charge == BrokerageAt(r, At(t, j), m)
    ensures IsZero(Clamp(Mul(t, r.brokerageRate), r.brokerageMin, r.brokerageMax)) <==> charge == 0
  {
    BrokerageRounded(r, t, j, m, charge);
    SigZero(charge);
    ZeroAtScale(Clamp(Mul(t, r.brokerageRate), r.brokerageMin, r.brokerageMax), m);
  }

  lemma SumZero(a: Decimal, b: Decimal)
    requires NonNegative(a) && NonNegative(b)
    ensures NonNegative(Add(a, b)) && (IsZero(Add(a, b)) <==> IsZero(a) && IsZero(b))
  {
    var j := Max(a.scale, b.scale);
    SumAt(a, b, j);
    SigZero(At(a, j) + At(b, j));
    ZeroAtScale(a, j);
    ZeroAtScale(b, j);
    ZeroAtScale(Add(a, b), j);
  }

  lemma TaxZero(base: Decimal, rate: Decimal)
    requires NonNegative(base) && NonNegative(rate)
    ensures IsZero(Mul(base, rate)) <==> IsZero(base) || IsZero(rate)
  {
    var i, j := base.scale, rate.scale;
    var product := At(base, i) * At(rate, j);
    MulAt(base, rate, i, j, product);
    SigZero(product);
    ZeroAtScale(base, i);
    ZeroAtScale(rate, j);
    ZeroAtScale(Mul(base, rate), i + j);
    AtNonNegative(base, i);
    AtNonNegative(rate, j);
    if At(base, i) > 0 && At(rate, j) > 0 { MulPositive(At(base, i), At(rate, j)); }
  }

  // ----- The charge of each type -----

  /** The exact charges on a turnover of `t` units of 10^-(m - 7): GST in units of 10^-(m + 4), all
      others in units of 10^-m. */
  function ChargeOf(r: ChargeRate, side: T.Side, t: int, m: nat, c: ChargeType): int
    requires RowFits(r) && m >= 7
  {
    match c
    case BROKERAGE => BrokerageAt(r, t, m)
    case STT => SttAt(r, side, t)
    case EXCHANGE_FEE => t * At(r.exchangeFeeRate, 7)
    case SEBI_FEE => t * At(r.sebiFeeRate, 7)
    case STAMP_DUTY => StampAt(r, side, t)
    case GST => TaxedAt(r, t, m) * At(r.gstRate, 4)
  }

  function ScaleOf(m: nat, c: ChargeType): nat {
    if c == GST then m + 4 else m
  }

  lemma GstZero(a: Amounts, rate: Decimal, b: int, f: int, h: int, g: int)
    requires NonNegative(a.brokerage) && NonNegative(a.exchangeFee) && NonNegative(a.sebiFee) && NonNegative(rate)
    requires a.gst == Mul(GstBase(a.brokerage, a.exchangeFee, a.sebiFee), rate)
    requires IsZero(a.brokerage) <==> b == 0
    requires IsZero(a.exchangeFee) <==> f == 0
    requires IsZero(a.sebiFee) <==> h == 0
    requires (IsZero(rate) <==> g == 0) && b >= 0 && f >= 0 && h >= 0 && g >= 0
    ensures IsZero(a.gst) <==> (b + f + h) * g == 0
  {
    SumZero(a.brokerage, a.exchangeFee);
    SumZero(Add(a.brokerage, a.exchangeFee), a.sebiFee);
    TaxZero(GstBase(a.brokerage, a.exchangeFee, a.sebiFee), rate);
    if b + f + h > 0 && g > 0 { MulPositive(b + f + h, g); }
  }

  lemma FiveZero(r: ChargeRate, side: T.Side, t: Decimal, j: nat, m: nat, c: ChargeType)
    requires RowFits(r) && RowBounded(r, 7, 16) && NonNegative(t) && t.scale <= j && Steady(r, t, j) && m == j + 7
    requires c != GST
    ensures IsZero(AmountOfType(AmountsFor(r, side, t), c)) <==> ChargeOf(r, side, At(t, j), m, c) == 0
  {
    var n := At(t, j);
    match c
    case BROKERAGE => BrokerageZero(r, t, j, m, BrokerageAt(r, n, m));
    case STT =>
      var rate := if side == T.BUY then r.sttBuyRate else r.sttSellRate;
      ProductZero(t, rate, j, n * At(rate, 7));
    case EXCHANGE_FEE => ProductZero(t, r.exchangeFeeRate, j, n * At(r.exchangeFeeRate, 7));
    case SEBI_FEE => ProductZero(t, r.sebiFeeRate, j, n * At(r.sebiFeeRate, 7));
    case STAMP_DUTY => ProductZero(t, r.stampDutyBuyRate, j, n * At(r.stampDutyBuyRate, 7));
  }

  lemma TermsNonNegative(r: ChargeRate, t: Decimal, j: nat, m: nat)
    requires RowFits(r) && RowBounded(r, 7, 16) && NonNegative(t) && t.scale <= j && Steady(r, t, j) && m == j + 7
    ensures BrokerageAt(r, At(t, j), m) >= 0
    ensures At(t, j) * At(r.exchangeFeeRate, 7) >= 0 && At(t, j) * At(r.sebiFeeRate, 7) >= 0
    ensures NonNegative(Mul(t, r.exchangeFeeRate)) && NonNegative(Mul(t, r.sebiFeeRate))
    ensures NonNegative(Clamp(Mul(t, r.brokerageRate), r.brokerageMin, r.brokerageMax))
  {
    BrokerageRounded(r, t, j, m, BrokerageAt(r, At(t, j), m));
    MulAt(t, r.exchangeFeeRate, j, 7, At(t, j) * At(r.exchangeFeeRate, 7));
    MulAt(t, r.sebiFeeRate, j, 7, At(t, j) * At(r.sebiFeeRate, 7));
    MulAt(t, r.brokerageRate, j, 7, At(t, j) * At(r.brokerageRate, 7));
  }

  lemma TaxChargeZero(r: ChargeRate, a: Amounts, side: T.Side, n: int, m: nat)
    requires RowFits(r) && m >= 7 && a.gst == Mul(GstBase(a.brokerage, a.exchangeFee, a.sebiFee), r.gstRate)
    requires NonNegative(a.brokerage) && NonNegative(a.exchangeFee) && NonNegative(a.sebiFee)
    requires ChargeOf(r, side, n, m, BROKERAGE) >= 0 && ChargeOf(r, side, n, m, EXCHANGE_FEE) >= 0
    requires ChargeOf(r, side, n, m, SEBI_FEE) >= 0
    requires IsZero(a.brokerage) <==> ChargeOf(r, side, n, m, BROKERAGE) == 0
    requires IsZero(a.exchangeFee) <==> ChargeOf(r, side, n, m, EXCHANGE_FEE) == 0
    requires IsZero(a.sebiFee) <==> ChargeOf(r, side, n, m, SEBI_FEE) == 0
    ensures IsZero(a.gst) <==> ChargeOf(r, side, n, m, GST) == 0
  {
    GstRateBelow(r);
    ZeroAtScale(r.gstRate, 4);
    GstZero(a, r.gstRate, ChargeOf(r, side, n, m, BROKERAGE), ChargeOf(r, side, n, m, EXCHANGE_FEE),
            ChargeOf(r, side, n, m, SEBI_FEE), At(r.gstRate, 4));
  }

  /** An unrounded amount is zero exactly if the charge is. */
  lemma AmountZero(r: ChargeRate, side: T.Side, t: Decimal, j: nat, m: nat, c: ChargeType)
    requires RowFits(r) && RowBounded(r, 7, 16) && NonNegative(t) && t.scale <= j && Steady(r, t, j) && m == j + 7
    ensures IsZero(AmountOfType(AmountsFor(r, side, t), c)) <==> ChargeOf(r, side, At(t, j), m, c) == 0
  {
    if c == GST {
      FiveZero(r, side, t, j, m, BROKERAGE);
      FiveZero(r, side, t, j, m, EXCHANGE_FEE);
      FiveZero(r, side, t, j, m, SEBI_FEE);
      TermsNonNegative(r, t, j, m);
      GstShape(r, side, t);
      TaxChargeZero(r, AmountsFor(r, side, t), side, At(t, j), m);
    } else {
      FiveZero(r, side, t, j, m, c);
    }
  }

  // ----- What a line says -----

  /** The text reads as paise of the charge: off by half a paisa and half of `u` at most, and the
      nearest, even on ties, if nothing was lost before. */
  predicate Says(text: Text, charge: int, scale: nat, u: int)
    requires scale >= 2
  {
    var d, paisa := M.Parse(text), Pow10(scale - 2);
    && d.Ok? && d.value.scale <= 2
    && 0 - paisa - u <= 2 * (charge - paisa * At(d.value, 2)) <= paisa + u
    && (u == 0 ==> Nearest(charge, paisa, At(d.value, 2)))
  }

  lemma PrintedReads(x: Decimal, text: Text)
    requires Decimals.Canonical(x) && text == M.Print(Round(x, 2))
    ensures var d := M.Parse(text); d.Ok? && d.value.scale <= 2 && At(d.value, 2) == At(Round(x, 2), 2)
  {
    M.ParsePrint(Round(x, 2));
    PlainAt(Round(x, 2), 2);
  }

  /** The nearest paise of a value are close to a charge that the value is close to. */
  lemma CloseToBoth(v: int, charge: int, paisa: nat, q: int, u: int)
    requires Nearest(v, paisa, q) && 0 - u <= 2 * (v - charge) <= u
    ensures 0 - paisa - u <= 2 * (charge - paisa * q) <= paisa + u && (u == 0 ==> Nearest(charge, paisa, q))
  {
  }

  lemma PrintedSays(x: Decimal, charge: int, scale: nat, u: int)
    requires Decimals.Canonical(x) && scale >= 2 && Near(x, scale, charge, u)
    ensures Says(M.Print(Round(x, 2)), charge, scale, u)
  {
    PrintedReads(x, M.Print(Round(x, 2)));
    RoundNearest(x, 2, scale);
    CloseToBoth(At(x, scale), charge, Pow10(scale - 2), At(Round(x, 2), 2), u);
  }

  /** What 40 digits can lose of a charge, twice, when products lose half of `u`. */
  function LossOf(c: ChargeType, g: int, u: nat): int {
    if c == GST then (113 * u) * g + 1000000 * u else u
  }

  lemma TypeNear(r: ChargeRate, side: T.Side, t: Decimal, j: nat, k: nat, m: nat, n: nat, q: nat, u: nat, c: ChargeType)
    requires RowFits(r) && Below(t, j, k) && Steady(r, t, j) && j + 9 <= k
    requires m == j + 7 && n == k + 7 && q == j + 11 && Loss(n, 6, u)
    ensures Near(AmountOfType(AmountsFor(r, side, t), c), ScaleOf(m, c), ChargeOf(r, side, At(t, j), m, c),
                 LossOf(c, At(r.gstRate, 4), u))
  {
    AmountsNear(r, side, t, j, k, m, n, q, u);
  }

  /** The unit that products of a turnover lose: none for at most 24 digits. */
  function Unit(t: Decimal, j: nat): nat
    requires j >= 1
  {
    if TurnoverFits(t, j) then 0 else Pow10(j - 1)
  }

  lemma TypeNearBy(r: ChargeRate, side: T.Side, t: Decimal, j: nat, k: nat, m: nat, q: nat, c: ChargeType, u: nat)
    requires RowFits(r) && j >= 1 && Below(t, j, k) && k == j + 32 && Steady(r, t, j) && m == j + 7 && q == j + 11
    requires u == Unit(t, j)
    ensures Near(AmountOfType(AmountsFor(r, side, t), c), ScaleOf(m, c), ChargeOf(r, side, At(t, j), m, c),
                 LossOf(c, At(r.gstRate, 4), u))
  {
    if TurnoverFits(t, j) {
      TypeNear(r, side, t, j, 24, m, 31, q, 0, c);
    } else {
      TypeNear(r, side, t, j, k, m, k + 7, q, u, c);
    }
  }

  /** What the lines of a fill are, for a turnover of `t` units of 10^-(m - 7). */
  predicate LinesSay(lines: seq<Line>, tradeId: Text, r: ChargeRate, side: T.Side, t: int, m: nat, u: nat)
    requires RowFits(r) && m >= 7
  {
    && OneLineEach(lines)
    && (forall l | l in lines ::
          l.tradeId == tradeId
          && Says(l.amount, ChargeOf(r, side, t, m, l.chargeType), ScaleOf(m, l.chargeType),
                  LossOf(l.chargeType, At(r.gstRate, 4), u)))
    && forall c: ChargeType :: HasLine(lines, c) <==> ChargeOf(r, side, t, m, c) != 0
  }

  lemma CanonicalOfType(a: Amounts, c: ChargeType)
    requires O.AllCanonical(a)
    ensures Decimals.Canonical(AmountOfType(a, c))
  {
  }

  lemma LineSaysNear(l: Line, tradeId: Text, a: Amounts, charge: int, scale: nat, loss: int)
    requires IsLineFor(l, tradeId, a) && O.AllCanonical(a) && scale >= 2
    requires Near(AmountOfType(a, l.chargeType), scale, charge, loss)
    ensures Says(l.amount, charge, scale, loss)
  {
    CanonicalOfType(a, l.chargeType);
    PrintedSays(AmountOfType(a, l.chargeType), charge, scale, loss);
  }

  lemma LineSays(r: ChargeRate, side: T.Side, t: Decimal, a: Amounts, tradeId: Text, l: Line, j: nat, k: nat, m: nat,
                 q: nat, u: nat, charge: int, scale: nat, loss: int)
    requires RowFits(r) && RowCanonical(r) && j >= 1 && Below(t, j, k) && k == j + 32 && Steady(r, t, j)
    requires m == j + 7 && q == j + 11 && u == Unit(t, j) && a == AmountsFor(r, side, t) && IsLineFor(l, tradeId, a)
    requires charge == ChargeOf(r, side, At(t, j), m, l.chargeType) && scale == ScaleOf(m, l.chargeType)
    requires loss == LossOf(l.chargeType, At(r.gstRate, 4), u)
    ensures Says(l.amount, charge, scale, loss)
  {
    TypeNearBy(r, side, t, j, k, m, q, l.chargeType, u);
    O.AmountsCanonical(r, side, t);
    LineSaysNear(l, tradeId, a, charge, scale, loss);
  }

  lemma LinesSayBy(r: ChargeRate, side: T.Side, t: Decimal, a: Amounts, tradeId: Text, lines: seq<Line>,
                   j: nat, k: nat, m: nat, q: nat, u: nat)
    requires RowFits(r) && RowCanonical(r) && j >= 1 && Below(t, j, k) && k == j + 32 && Steady(r, t, j)
    requires m == j + 7 && q == j + 11 && a == AmountsFor(r, side, t) && LinesFit(lines, tradeId, a) && u == Unit(t, j)
    ensures LinesSay(lines, tradeId, r, side, At(t, j), m, u)
  {
    forall l | l in lines
      ensures Says(l.amount, ChargeOf(r, side, At(t, j), m, l.chargeType), ScaleOf(m, l.chargeType),
                   LossOf(l.chargeType, At(r.gstRate, 4), u))
    {
      LineSays(r, side, t, a, tradeId, l, j, k, m, q, u, ChargeOf(r, side, At(t, j), m, l.chargeType),
               ScaleOf(m, l.chargeType), LossOf(l.chargeType, At(r.gstRate, 4), u));
    }
    FitsBounded(r);
    forall c: ChargeType ensures HasLine(lines, c) <==> ChargeOf(r, side, At(t, j), m, c) != 0 {
      AmountZero(r, side, t, j, m, c);
    }
  }

  /** Exactly when charges can be computed: a row of the segment is in force, and both texts can be
      read. */
  lemma ChargesComputed(rates: seq<ChargeRate>, fill: Fill)
    ensures LinesFor(rates, fill).Ok? <==>
            && (exists r | r in rates :: r.segment == fill.segment && r.effectiveFrom <= fill.executedAt)
            && M.Parse(fill.quantity).Ok? && M.Parse(fill.price).Ok?
  {
    var r := ActiveRate(rates, fill.segment, fill.executedAt);
    if r.TypeError? {
      forall x | x in rates ensures !(x.segment == fill.segment && x.effectiveFrom <= fill.executedAt) {
        assert !Applies(x, fill.segment, fill.executedAt);
      }
    } else {
      assert Applies(r.value, fill.segment, fill.executedAt);
    }
  }

  /** For all rates and fills whose charges can be computed: every line carries the fill's trade id,
      and no type occurs twice. */
  lemma LinesOfAnyFill(rates: seq<ChargeRate>, fill: Fill)
    requires LinesFor(rates, fill).Ok?
    ensures OneLineEach(LinesFor(rates, fill).value)
    ensures forall l | l in LinesFor(rates, fill).value :: l.tradeId == fill.tradeId
  {
    var x, y := M.Parse(fill.quantity).value, M.Parse(fill.price).value;
    var r := ActiveRate(rates, fill.segment, fill.executedAt).value;
    LinesForIs(rates, fill, r, x, y);
    TypesInLines(fill.tradeId, AmountsFor(r, fill.side, Mul(x, y)));
  }

  /** Which line carries which charge: every type has a line exactly if its charge on the turnover is
      not zero, and its text says that charge in paise; for every turnover up to 10^32 with any number
      `j` of decimals. */
  lemma LinesByType(rates: seq<ChargeRate>, fill: Fill, r: ChargeRate, x: Decimal, y: Decimal, t: Decimal,
                    j: nat, k: nat, m: nat, q: nat)
    requires M.Parse(fill.quantity) == C.Ok(x) && M.Parse(fill.price) == C.Ok(y) && t == Mul(x, y)
    requires ActiveRate(rates, fill.segment, fill.executedAt) == C.Ok(r) && RowFits(r) && RowCanonical(r)
    requires j >= 1 && Below(t, j, k) && k == j + 32 && Steady(r, t, j) && m == j + 7 && q == j + 11
    ensures LinesFor(rates, fill).Ok?
    ensures LinesSay(LinesFor(rates, fill).value, fill.tradeId, r, fill.side, At(t, j), m, Unit(t, j))
  {
    var a := AmountsFor(r, fill.side, t);
    LinesForIs(rates, fill, r, x, y);
    TypesInLines(fill.tradeId, a);
    LinesSayBy(r, fill.side, t, a, fill.tradeId, LinesFor(rates, fill).value, j, k, m, q, Unit(t, j));
  }

  // ----- GST on the emitted lines -----

  /** What the line of a type says, in paise; nothing if there is none. */
  function LinePaise(lines: seq<Line>, c: ChargeType): int {
    if lines == [] then 0
    else if lines[0].chargeType == c then
      var d := M.Parse(lines[0].amount);
      if d.Ok? && d.value.scale <= 2 then At(d.value, 2) else 0
    else LinePaise(lines[1..], c)
  }

  lemma {:induction false} LinePaiseIs(lines: seq<Line>, tradeId: Text, a: Amounts, c: ChargeType)
    requires O.AllCanonical(a) && forall l | l in lines :: IsLineFor(l, tradeId, a)
    ensures LinePaise(lines, c) == if HasLine(lines, c) then Paise(AmountOfType(a, c)) else 0
  {
    if lines != [] {
      if lines[0].chargeType == c {
        assert lines[0] in lines;
        CanonicalOfType(a, c);
        M.ParsePrint(Round(AmountOfType(a, c), 2));
        PlainAt(Round(AmountOfType(a, c), 2), 2);
      } else {
        LinePaiseIs(lines[1..], tradeId, a, c);
        HasLineRest(lines, c);
      }
    }
  }

  lemma HasLineRest(lines: seq<Line>, c: ChargeType)
    requires lines != [] && lines[0].chargeType != c
    ensures HasLine(lines, c) <==> HasLine(lines[1..], c)
  {
    assert lines == [lines[0]] + lines[1..];
  }

  /** Lines that were left out are worth nothing. */
  lemma EmittedPaise(lines: seq<Line>, tradeId: Text, a: Amounts, c: ChargeType)
    requires O.AllCanonical(a) && LinesFit(lines, tradeId, a)
    ensures LinePaise(lines, c) == Paise(AmountOfType(a, c))
  {
    LinePaiseIs(lines, tradeId, a, c);
    CanonicalOfType(a, c);
    if IsZero(AmountOfType(a, c)) { ZeroPaise(AmountOfType(a, c)); }
  }

  lemma RederivedPaise(r: ChargeRate, a: Amounts, m: nat, k: nat, paise: int, g: int, q: int)
    requires FiveBounded(a, m, k) && Below(r.gstRate, 4, 4) && m >= 2 && k <= 34 + (m - 2) && g == At(r.gstRate, 4)
    requires paise == Paise(a.brokerage) + Paise(a.exchangeFee) + Paise(a.sebiFee) && Nearest(paise * g, 10000, q)
    ensures Paise(RederivedGst(r, a)) == q
  {
    RederivedAt(a.brokerage, a.exchangeFee, a.sebiFee, r.gstRate, m, k, 34, g);
    PowersOfTen();
    PaiseIs(RederivedGst(r, a), 6, 10000, q);
  }

  lemma EmittedTax(r: ChargeRate, a: Amounts, lines: seq<Line>, tradeId: Text, m: nat, k: nat, paise: int, g: int,
                   q: int)
    requires O.AllCanonical(a) && LinesFit(lines, tradeId, a) && FiveBounded(a, m, k) && Below(r.gstRate, 4, 4)
    requires m >= 2 && k <= 34 + (m - 2) && g == At(r.gstRate, 4) && Nearest(paise * g, 10000, q)
    requires paise == LinePaise(lines, BROKERAGE) + LinePaise(lines, EXCHANGE_FEE) + LinePaise(lines, SEBI_FEE)
    requires 0 - Drift(g) <= Paise(a.gst) - Paise(RederivedGst(r, a)) <= Drift(g)
    ensures 0 - Drift(g) <= LinePaise(lines, GST) - q <= Drift(g)
  {
    EmittedPaise(lines, tradeId, a, BROKERAGE);
    EmittedPaise(lines, tradeId, a, EXCHANGE_FEE);
    EmittedPaise(lines, tradeId, a, SEBI_FEE);
    EmittedPaise(lines, tradeId, a, GST);
    RederivedPaise(r, a, m, k, paise, g, q);
  }

  lemma FillDrift(r: ChargeRate, side: T.Side, t: Decimal, a: Amounts, j: nat, k: nat, m: nat, n: nat, g: int)
    requires RowFits(r) && RowCanonical(r) && j >= 1 && Below(t, j, k) && k == j + 32 && m == j + 7 && n == k + 7
    requires a == AmountsFor(r, side, t) && g == At(r.gstRate, 4)
    ensures FiveBounded(a, m, n) && Below(r.gstRate, 4, 4)
    ensures 0 - Drift(g) <= Paise(a.gst) - Paise(RederivedGst(r, a)) <= Drift(g)
  {
    GstConsistentAt(r, side, t, j, k, m, n);
    FillBounded(r, side, t, j, k, m, n);
    GstRateBelow(r);
  }

  lemma TaxOnLines(r: ChargeRate, side: T.Side, t: Decimal, a: Amounts, lines: seq<Line>, tradeId: Text,
                   j: nat, k: nat, m: nat, n: nat, paise: int, g: int, q: int)
    requires RowFits(r) && RowCanonical(r) && j >= 1 && Below(t, j, k) && k == j + 32 && m == j + 7 && n == k + 7
    requires a == AmountsFor(r, side, t) && LinesFit(lines, tradeId, a) && g == At(r.gstRate, 4)
    requires paise == LinePaise(lines, BROKERAGE) + LinePaise(lines, EXCHANGE_FEE) + LinePaise(lines, SEBI_FEE)
    requires Nearest(paise * g, 10000, q)
    ensures 0 - Drift(g) <= LinePaise(lines, GST) - q <= Drift(g)
  {
    O.AmountsCanonical(r, side, t);
    FillDrift(r, side, t, a, j, k, m, n, g);
    EmittedTax(r, a, lines, tradeId, m, n, paise, g, q);
  }

  /** On the emitted lines, found by their types: the GST line is within a paisa (two for rates from two
      thirds on) of the nearest paise to the rate times the brokerage, exchange and SEBI lines. */
  lemma GstOnEmitted(rates: seq<ChargeRate>, fill: Fill, r: ChargeRate, x: Decimal, y: Decimal, t: Decimal,
                     lines: seq<Line>, j: nat, k: nat, m: nat, n: nat, paise: int, g: int, q: int)
    requires M.Parse(fill.quantity) == C.Ok(x) && M.Parse(fill.price) == C.Ok(y) && t == Mul(x, y)
    requires ActiveRate(rates, fill.segment, fill.executedAt) == C.Ok(r) && RowFits(r) && RowCanonical(r)
    requires j >= 1 && Below(t, j, k) && k == j + 32 && m == j + 7 && n == k + 7
    requires LinesFor(rates, fill) == C.Ok(lines) && g == At(r.gstRate, 4)
    requires paise == LinePaise(lines, BROKERAGE) + LinePaise(lines, EXCHANGE_FEE) + LinePaise(lines, SEBI_FEE)
    requires Nearest(paise * g, 10000, q)
    ensures var drift := if 3 * g < 20000 then 1 else 2; 0 - drift <= LinePaise(lines, GST) - q <= drift
  {
    LinesForIs(rates, fill, r, x, y);
    TypesInLines(fill.tradeId, AmountsFor(r, fill.side, t));
    TaxOnLines(r, fill.side, t, AmountsFor(r, fill.side, t), lines, fill.tradeId, j, k, m, n, paise, g, q);
  }
}
