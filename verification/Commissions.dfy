/** What the commission on a fill is, in whole numbers: the fee times the quantity to 40 digits,
    rounded half up to units of 0.0001. */
module Commissions {
  import opened Texts
  import opened ColumnUnits
  import opened Digits
  import opened Decimals
  import opened Money
  import opened Significance
  import M = MoneyText
  import N = NumericColumns

  /** An order id that ends in the code units of `-C` closes a position. */
  predicate Closing(id: Text) {
    |id| >= 2 && id[|id| - 2] == 0x2D && id[|id| - 1] == 0x43
  }

  /** The product of the coefficients: the commission in units of 10^-(scale of rate + scale of
      quantity). */
  function Exact(rate: Decimal, quantity: Decimal): int {
    Coef(rate) * Coef(quantity)
  }

  function Scales(rate: Decimal, quantity: Decimal): nat {
    rate.scale + quantity.scale
  }

  /** `units` of 0.0001 are what `p / 10^s` comes to: the nearest number of units, ties upwards, for
      at most 40 digits; else off by half a unit and half of the fortieth digit at most. */
  predicate Comes(p: nat, s: nat, units: nat) {
    var digits := |Print(p)|;
    if digits <= 40 then 0 - Pow10(s) <= 2 * (10000 * p - Pow10(s) * units) < Pow10(s)
    else
      var slack := Pow10(s) + 10000 * Pow10(digits - 40);
      0 - slack <= 2 * (10000 * p - Pow10(s) * units) <= slack
  }

  function DueUnits(p: nat, s: nat): nat {
    N.HalfAway(10000 * SigInt(p), Pow10(s))
  }

  // ----- The units mean the product -----

  lemma SigError(p: nat, k: nat, u: nat)
    requires |Print(p)| > 40 && k == |Print(p)| - 40 && u == Pow10(k)
    ensures 0 - u <= 2 * (p - SigInt(p)) <= u
  {
    SigNearest(p, u);
    assert u * HalfEven(p, u) == HalfEven(p, u) * u;
  }

  lemma Combine(p: int, sig: int, u: int, scaled: int, bound: int)
    requires 0 - u <= 2 * (p - sig) <= u && 0 - bound <= 2 * (10000 * sig - scaled) < bound
    ensures 0 - (bound + 10000 * u) <= 2 * (10000 * p - scaled) <= bound + 10000 * u
  {
  }

  lemma DueComes(p: nat, s: nat)
    ensures Comes(p, s, DueUnits(p, s))
  {
    var m, units := Pow10(s), DueUnits(p, s);
    N.HalfAwayNearest(10000 * SigInt(p), m);
    if |Print(p)| > 40 {
      SigError(p, |Print(p)| - 40, Pow10(|Print(p)| - 40));
      Combine(p, SigInt(p), Pow10(|Print(p)| - 40), m * units, m);
    }
  }

  // ----- The commission -----

  lemma SameSigns(x: Decimal, y: Decimal)
    requires Exact(x, y) > 0
    ensures x.mag > 0 && y.mag > 0 && x.neg == y.neg && Exact(x, y) == x.mag * y.mag
  {
    SignedProduct(x, y);
    if x.neg != y.neg { MulMonotone(0, x.mag, y.mag); }
  }

  /** A product is positive exactly if that of the coefficients is. */
  lemma PositiveProduct(x: Decimal, y: Decimal)
    ensures IsPositive(Mul(x, y)) <==> Exact(x, y) > 0
  {
    SignedProduct(x, y);
    if x.mag > 0 && y.mag > 0 {
      MulPositive(x.mag, y.mag);
      ProductKeeps(x, y);
    } else {
      assert x.mag * y.mag == 0;
    }
  }

  lemma ProductKeeps(x: Decimal, y: Decimal)
    requires x.mag * y.mag > 0
    ensures Mul(x, y).mag > 0 && Mul(x, y).neg == (x.neg != y.neg)
  {
    MakeKeeps(x.neg != y.neg, x.mag * y.mag, x.scale + y.scale);
    SignificantKeeps(Make(x.neg != y.neg, x.mag * y.mag, x.scale + y.scale));
  }

  lemma MakeKeeps(neg: bool, mag: nat, scale: nat)
    requires mag > 0
    ensures Make(neg, mag, scale).mag > 0
  {
    var d := Make(neg, mag, scale);
    var p := Pow10(scale - d.scale);
    assert d.mag == 0 ==> d.mag * p == 0;
  }

  lemma SignificantKeeps(d: Decimal)
    requires d.mag > 0
    ensures Significant(d).mag > 0 && Significant(d).neg == d.neg
  {
    SigRange(d.mag);
    if |Print(d.mag)| > PRECISION { MakeKeeps(d.neg, SigInt(d.mag), d.scale); }
  }

  /** The units of a positive product. */
  lemma ProductUnits(x: Decimal, y: Decimal)
    requires Exact(x, y) > 0
    ensures N.Units(Mul(x, y)) == DueUnits(Exact(x, y), Scales(x, y))
  {
    SameSigns(x, y);
    var u, v := Decimal(false, x.mag, x.scale), Decimal(false, y.mag, y.scale);
    assert Mul(x, y) == Mul(u, v);
    MulAt(u, v, x.scale, y.scale, Exact(x, y));
    UnitsNonNegative(Mul(u, v));
    UnitsAre(Mul(u, v), Scales(x, y), SigInt(Exact(x, y)), N.Units(Mul(u, v)), Pow10(Scales(x, y)));
  }

  // ----- The texts -----

  predicate Reads(rate: Text, quantity: Text) {
    M.Parse(rate).Ok? && M.Parse(quantity).Ok?
  }

  /** Something is charged: the position is opened, and the fee times the quantity is positive. */
  predicate Owed(rate: Text, id: Text, quantity: Text)
    requires Reads(rate, quantity)
  {
    !Closing(id) && Exact(M.Parse(rate).value, M.Parse(quantity).value) > 0
  }

  function Fee(rate: Text, id: Text, quantity: Text): (units: nat)
    requires Reads(rate, quantity) && Owed(rate, id, quantity)
    ensures Comes(Exact(M.Parse(rate).value, M.Parse(quantity).value),
                  Scales(M.Parse(rate).value, M.Parse(quantity).value), units)
  {
    var r, q := M.Parse(rate).value, M.Parse(quantity).value;
    DueComes(Exact(r, q), Scales(r, q));
    DueUnits(Exact(r, q), Scales(r, q))
  }
}
