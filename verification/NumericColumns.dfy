/** `numeric(20,4)` columns: what is stored for a decimal, and the text that is read back. */
module NumericColumns {
  import opened Texts
  import opened Digits
  import opened Decimals
  import opened Money
  import opened MoneyText
  import C = Canonical

  const PLACES: nat := 4

  /** The quotient rounded half away from zero. */
  function HalfAway(n: nat, m: nat): nat
    requires m > 0
  {
    (2 * n + m) / (2 * m)
  }

  /** The stored value in units of 0.0001. */
  function Units(d: Decimal): int {
    if d.scale <= PLACES then At(d, PLACES)
    else
      var n := HalfAway(d.mag, Pow10(d.scale - PLACES));
      if d.neg then 0 - n else n
  }

  /** `q` is a nearest integer to `n / m`; of two, the larger. */
  predicate NearestUp(n: nat, m: nat, q: nat) {
    0 - m <= 2 * (n - m * q) < m
  }

  /** A column keeps the nearest multiple of 0.0001, away from zero on ties. */
  lemma HalfAwayNearest(n: nat, m: nat)
    requires m > 0
    ensures NearestUp(n, m, HalfAway(n, m))
  {
    var q, r := (2 * n + m) / (2 * m), (2 * n + m) % (2 * m);
    assert 2 * n + m == (2 * m) * q + r;
    assert (2 * m) * q == 2 * (m * q);
  }

  /** At most twenty digits; the insert fails otherwise. */
  predicate Fits(d: Decimal) {
    |Digits.Print(Abs(Units(d)))| <= 20
  }

  function UnitsText(n: int): Text {
    Sign(n < 0) + Fixed(Abs(n), PLACES)
  }

  /** `column::text` after `d` was stored: always four decimals. */
  function ColumnText(d: Decimal): Text {
    UnitsText(Units(d))
  }

  function OfUnits(n: int): (d: Decimal)
    ensures Decimals.Canonical(d) && d.scale <= PLACES
  {
    Make(n < 0, Abs(n), PLACES)
  }

  /** The decimal that is read back. */
  function Stored(d: Decimal): (r: Decimal)
    ensures Decimals.Canonical(r) && r.scale <= PLACES
  {
    OfUnits(Units(d))
  }

  lemma ColumnReads(n: int)
    ensures Parse(UnitsText(n)) == C.Ok(OfUnits(n))
  {
    ParseSignedFixed(n < 0, Abs(n), PLACES);
  }

  lemma UnitsSign(d: Decimal)
    requires d.scale <= PLACES
    ensures Units(d) < 0 <==> IsNegative(d)
    ensures Abs(Units(d)) == d.mag * Pow10(PLACES - d.scale)
  {
    var p := Pow10(PLACES - d.scale);
    NegTimes(d.mag, p);
    MulMonotone(0, d.mag, p);
    if d.mag > 0 { MulPositive(d.mag, p); }
  }

  /** A decimal of at most four places is stored exactly. */
  lemma StoredExactly(d: Decimal)
    requires Decimals.Canonical(d) && d.scale <= PLACES
    ensures Stored(d) == Plain(d)
  {
    UnitsSign(d);
    MakeShift(IsNegative(d), d.mag, d.scale, PLACES - d.scale);
    MakeCanonical(Plain(d));
  }

  /** The column gives back the canonical text, after parsing and printing it again, exactly for
      the values of at most four places. */
  lemma RereadSame(d: Decimal)
    requires Decimals.Canonical(d)
    ensures MoneyText.Print(Stored(d)) == MoneyText.Print(d) <==> d.scale <= PLACES
  {
    if d.scale <= PLACES {
      StoredExactly(d);
    }
    PrintEquals(Stored(d), d);
    CanonicalUnique(Stored(d), d);
  }

  /** The raw column text is the canonical text exactly for the values that need all four
      places. */
  lemma RawSame(d: Decimal)
    requires Decimals.Canonical(d)
    ensures ColumnText(d) == MoneyText.Print(d) <==> d.scale == PLACES
  {
    var n := Units(d);
    FixedShape(Abs(n), PLACES);
    FixedShape(d.mag, d.scale);
    SignedBody(n < 0, Fixed(Abs(n), PLACES));
    SignedBody(IsNegative(d), Fixed(d.mag, d.scale));
    if d.scale == PLACES {
      UnitsSign(d);
      assert d.mag * Pow10(0) == d.mag;
    }
  }

  lemma SignedBody(neg: bool, t: Text)
    requires t != [] && IsDigit(t[0])
    ensures Body(Sign(neg) + t) == t
  {
  }
}
