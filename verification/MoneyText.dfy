/** Money as text: the constructor's decimal strings, `toString`, paise, and the schema that
    recognises positive amounts. */
module MoneyText {
  import opened Texts
  import opened Digits
  import opened Decimals
  import opened Money
  import C = Canonical

  // ----- Reading -----

  /** What `trim()` removes: white space and line terminators. */
  predicate IsSpace(c: CodeUnit) {
    0x09 <= c <= 0x0D || c == 0x20 || c == 0xA0 || c == 0x1680 || 0x2000 <= c <= 0x200A
    || c == 0x2028 || c == 0x2029 || c == 0x202F || c == 0x205F || c == 0x3000 || c == 0xFEFF
  }

  function TrimStart(t: Text): (r: Text)
    ensures r == [] || !IsSpace(r[0])
  {
    if t != [] && IsSpace(t[0]) then TrimStart(t[1..]) else t
  }

  function TrimEnd(t: Text): (r: Text)
    ensures r == [] || !IsSpace(r[|r| - 1])
  {
    if t != [] && IsSpace(t[|t| - 1]) then TrimEnd(t[..|t| - 1]) else t
  }

  function Trim(t: Text): Text {
    TrimEnd(TrimStart(t))
  }

  /** The position of the first point, or the length. */
  function DotIndex(t: Text): (p: nat)
    ensures p <= |t| && (p < |t| ==> t[p] == DOT)
    ensures forall i | 0 <= i < p :: t[i] != DOT
  {
    if t == [] || t[0] == DOT then 0 else 1 + DotIndex(t[1..])
  }

  /** `\d+(\.\d+)?` */
  predicate Unsigned(t: Text) {
    var p := DotIndex(t);
    p > 0 && AllDigits(t[..p]) && (p < |t| ==> p + 1 < |t| && AllDigits(t[p + 1..]))
  }

  function Scale(t: Text): nat {
    var p := DotIndex(t);
    if p == |t| then 0 else |t| - p - 1
  }

  /** The text without its point. */
  function AllButDot(t: Text): Text {
    var p := DotIndex(t);
    if p == |t| then t else t[..p] + t[p + 1..]
  }

  function ReadUnsigned(neg: bool, t: Text): Decimal
    requires Unsigned(t)
  {
    Make(neg, Value(AllButDot(t)), Scale(t))
  }

  function Body(t: Text): Text {
    if t != [] && t[0] == MINUS then t[1..] else t
  }

  /** `^-?\d+(\.\d+)?$` */
  predicate DecimalPattern(t: Text) {
    Unsigned(Body(t))
  }

  function Read(t: Text): Decimal
    requires DecimalPattern(t)
  {
    ReadUnsigned(Body(t) != t, Body(t))
  }

  /** `new Money(string)` */
  function Parse(s: Text): (r: C.Result<Decimal>)
    ensures r.Ok? ==> Decimals.Canonical(r.value)
  {
    var t := Trim(s);
    if DecimalPattern(t) then C.Ok(Read(t)) else C.TypeError
  }

  // ----- Printing -----

  /** The digits of `n`, padded with zeros in front to more than `places` digits. */
  function Padded(n: nat, places: nat): (t: Text)
    ensures |t| > places && AllDigits(t)
  {
    var digits := Digits.Print(n);
    if |digits| <= places then Repeat(ZERO, places + 1 - |digits|) + digits else digits
  }

  /** `n / 10^places` with exactly that many digits after the point. */
  function Fixed(n: nat, places: nat): Text {
    var t := Padded(n, places);
    var p := |t| - places;
    if places == 0 then t else t[..p] + [DOT] + t[p..]
  }

  function Sign(neg: bool): Text {
    if neg then [MINUS] else []
  }

  /** `toString()`, that is `toFixed()`: no exponent, no trailing zeros, no minus on zero. */
  function Print(d: Decimal): Text {
    Sign(IsNegative(d)) + Fixed(d.mag, d.scale)
  }

  // ----- Printing and reading are inverse -----

  lemma {:induction false} ValueZeros(n: nat, t: Text)
    requires AllDigits(t)
    ensures AllDigits(Repeat(ZERO, n) + t) && Value(Repeat(ZERO, n) + t) == Value(t)
  {
    ZerosWorthNothing(n);
    ValueConcat(Repeat(ZERO, n), t);
  }

  lemma {:induction false} ZerosWorthNothing(n: nat)
    ensures AllDigits(Repeat(ZERO, n)) && Value(Repeat(ZERO, n)) == 0
  {
    if n > 0 {
      ZerosWorthNothing(n - 1);
      assert Repeat(ZERO, n)[..n - 1] == Repeat(ZERO, n - 1);
    }
  }

  lemma PaddedValue(n: nat, places: nat)
    ensures Value(Padded(n, places)) == n
  {
    ValuePrint(n);
    var digits := Digits.Print(n);
    if |digits| <= places {
      ValueZeros(places + 1 - |digits|, digits);
    }
  }

  lemma {:induction false} DotIndexAt(t: Text, p: nat)
    requires p <= |t| && (p < |t| ==> t[p] == DOT) && forall i | 0 <= i < p :: t[i] != DOT
    ensures DotIndex(t) == p
  {
  }

  lemma FixedShape(n: nat, places: nat)
    ensures var t := Fixed(n, places);
            Unsigned(t) && Scale(t) == places && AllButDot(t) == Padded(n, places)
    ensures IsDigit(Fixed(n, places)[0])
    ensures IsDigit(Fixed(n, places)[|Fixed(n, places)| - 1])
  {
    var t, f := Padded(n, places), Fixed(n, places);
    var p := |t| - places;
    if places == 0 {
      DotIndexAt(f, |f|);
      assert f[..|f|] == f;
    } else {
      DotIndexAt(f, p);
      assert f[..p] == t[..p] && f[p + 1..] == t[p..];
      assert t == t[..p] + t[p..];
    }
  }

  lemma FixedRead(neg: bool, n: nat, places: nat)
    ensures Unsigned(Fixed(n, places)) && ReadUnsigned(neg, Fixed(n, places)) == Make(neg, n, places)
  {
    FixedShape(n, places);
    PaddedValue(n, places);
  }

  lemma TrimNothing(t: Text)
    requires t != [] && !IsSpace(t[0]) && !IsSpace(t[|t| - 1])
    ensures Trim(t) == t
  {
  }

  lemma ParseSigned(neg: bool, t: Text)
    requires Unsigned(t) && IsDigit(t[0]) && IsDigit(t[|t| - 1])
    ensures Parse(Sign(neg) + t) == C.Ok(ReadUnsigned(neg, t))
  {
    assert Body(Sign(neg) + t) == t;
    TrimNothing(Sign(neg) + t);
  }

  lemma ParseSignedFixed(neg: bool, n: nat, places: nat)
    ensures Parse(Sign(neg) + Fixed(n, places)) == C.Ok(Make(neg, n, places))
  {
    FixedShape(n, places);
    FixedRead(neg, n, places);
    ParseSigned(neg, Fixed(n, places));
  }

  /** The value without the sign of zero, which no text shows. */
  function Plain(d: Decimal): Decimal {
    d.(neg := IsNegative(d))
  }

  /** Reading what `toString` prints gives the value back. */
  lemma ParsePrint(d: Decimal)
    requires Decimals.Canonical(d)
    ensures Parse(Print(d)) == C.Ok(Plain(d))
  {
    ParseSignedFixed(IsNegative(d), d.mag, d.scale);
    MakeCanonical(Plain(d));
  }

  /** Two accepted strings print identically exactly when they are numerically equal. */
  lemma PrintCanonical(s: Text, t: Text)
    requires Parse(s).Ok? && Parse(t).Ok?
    ensures Print(Parse(s).value) == Print(Parse(t).value) <==> Equals(Parse(s).value, Parse(t).value)
  {
    PrintEquals(Parse(s).value, Parse(t).value);
  }

  lemma PrintEquals(a: Decimal, b: Decimal)
    requires Decimals.Canonical(a) && Decimals.Canonical(b)
    ensures Print(a) == Print(b) <==> Equals(a, b)
    ensures Equals(a, b) <==> Plain(a) == Plain(b)
  {
    CanonicalUnique(a, b);
    ParsePrint(a);
    ParsePrint(b);
  }

  /** A string that was read and printed once is a fixed point of reading and printing. */
  lemma PrintStable(s: Text)
    requires Parse(s).Ok?
    ensures Parse(Print(Parse(s).value)).Ok?
    ensures Print(Parse(Print(Parse(s).value)).value) == Print(Parse(s).value)
  {
    ParsePrint(Parse(s).value);
  }

  // ----- The schema of positive amounts -----

  /** `^(0\.\d*[1-9]\d*|[1-9]\d*(\.\d+)?)$` */
  predicate PositivePattern(t: Text) {
    || (|t| >= 2 && t[0] == ZERO && t[1] == DOT && AllDigits(t[2..])
        && exists i | 2 <= i < |t| :: t[i] != ZERO)
    || (Unsigned(t) && t[0] != ZERO)
  }

  /** No zero in front of another digit. */
  predicate NoLeadingZero(t: Text) {
    |t| >= 2 && t[0] == ZERO ==> t[1] == DOT
  }

  lemma {:induction false} ValueZero(t: Text)
    requires AllDigits(t)
    ensures Value(t) == 0 <==> forall i | 0 <= i < |t| :: t[i] == ZERO
  {
    if t != [] {
      ValueZero(t[..|t| - 1]);
      assert t == t[..|t| - 1] + [t[|t| - 1]];
    }
  }

  lemma UnsignedDigits(t: Text)
    requires Unsigned(t)
    ensures AllDigits(AllButDot(t)) && IsDigit(t[0]) && |AllButDot(t)| > 0 && AllButDot(t)[0] == t[0]
  {
  }

  lemma MakeZero(neg: bool, mag: nat, scale: nat)
    ensures Make(neg, mag, scale).mag == 0 <==> mag == 0
  {
    var d := Make(neg, mag, scale);
    if d.mag > 0 { MulPositive(d.mag, Pow10(scale - d.scale)); }
  }

  /** The schema accepts exactly the unsigned decimals of positive value that have no leading
      zero. */
  lemma PositiveExactly(t: Text)
    ensures PositivePattern(t) <==>
            Unsigned(t) && ReadUnsigned(false, t).mag > 0 && NoLeadingZero(t)
  {
    if t != [] && t[0] == ZERO {
      if |t| >= 2 && t[1] == DOT {
        DotIndexAt(t, 1);
        if AllDigits(t[2..]) && |t| > 2 {
          SmallPositive(t);
        }
      } else if Unsigned(t) && |t| == 1 {
        assert AllButDot(t) == t;
        ValueZero(t);
        MakeZero(false, Value(t), 0);
      }
    } else if Unsigned(t) {
      UnsignedDigits(t);
      ValuePositive(AllButDot(t));
      MakeZero(false, Value(AllButDot(t)), Scale(t));
    }
  }

  lemma ShiftNonZero(t: Text, n: nat)
    requires n <= |t|
    ensures (exists i | n <= i < |t| :: t[i] != ZERO) <==> exists i | 0 <= i < |t[n..]| :: t[n..][i] != ZERO
  {
    var rest := t[n..];
    assert forall i | n <= i < |t| :: t[i] == rest[i - n];
  }

  lemma ZeroInFront(t: Text)
    requires |t| > 2 && t[0] == ZERO && AllDigits(t[2..])
    ensures AllDigits(t[..1] + t[2..]) && Value(t[..1] + t[2..]) == Value(t[2..])
  {
    ValueZero(t[..1]);
    ValueConcat(t[..1], t[2..]);
  }

  lemma SmallShape(t: Text)
    requires |t| > 2 && t[0] == ZERO && t[1] == DOT && AllDigits(t[2..]) && DotIndex(t) == 1
    ensures Unsigned(t) && AllButDot(t) == t[..1] + t[2..]
  {
  }

  lemma SmallPositive(t: Text)
    requires |t| > 2 && t[0] == ZERO && t[1] == DOT && AllDigits(t[2..]) && DotIndex(t) == 1
    ensures Unsigned(t)
    ensures ReadUnsigned(false, t).mag > 0 <==> exists i | 2 <= i < |t| :: t[i] != ZERO
  {
    SmallShape(t);
    ZeroInFront(t);
    SomeDigit(t[2..]);
    ShiftNonZero(t, 2);
    MakeZero(false, Value(t[..1] + t[2..]), Scale(t));
  }

  lemma SomeDigit(t: Text)
    requires AllDigits(t)
    ensures Value(t) > 0 <==> exists i | 0 <= i < |t| :: t[i] != ZERO
  {
    ValueZero(t);
  }

  /** Every match parses to a positive amount. */
  lemma PositiveParses(t: Text)
    requires PositivePattern(Trim(t))
    ensures Parse(t).Ok? && IsPositive(Parse(t).value)
  {
    PositiveExactly(Trim(t));
    UnsignedDigits(Trim(t));
    assert Body(Trim(t)) == Trim(t);
  }

  lemma FixedNoLeadingZero(n: nat, places: nat)
    ensures NoLeadingZero(Fixed(n, places))
  {
    var t := Padded(n, places);
    assert t[0] == ZERO ==> |t| == places + 1;
    assert places > 0 ==> Fixed(n, places)[0] == t[0] && Fixed(n, places)[|t| - places] == DOT;
  }

  /** Every positive amount prints to a match. */
  lemma PositivePrints(d: Decimal)
    requires Decimals.Canonical(d) && IsPositive(d)
    ensures PositivePattern(Print(d)) && Trim(Print(d)) == Print(d)
  {
    var t := Fixed(d.mag, d.scale);
    FixedShape(d.mag, d.scale);
    FixedRead(false, d.mag, d.scale);
    MakeZero(false, d.mag, d.scale);
    FixedNoLeadingZero(d.mag, d.scale);
    PositiveExactly(t);
    TrimNothing(t);
    assert Print(d) == t;
  }

  // ----- Paise -----

  /** `^-?\d+$` */
  predicate IntegerPattern(t: Text) {
    Body(t) != [] && AllDigits(Body(t))
  }

  /** `fromPaise`; the text is tested before it is trimmed. */
  function FromPaise(paise: Text): C.Result<Decimal> {
    if !IntegerPattern(paise) then C.TypeError
    else
      var m := Parse(paise);
      if m.Ok? then C.Ok(DivHundred(m.value)) else C.TypeError
  }

  function ToPaise(m: Decimal): Text {
    Print(Round(Mul(m, HUNDRED), 0))
  }

  lemma ParseInteger(neg: bool, n: nat)
    ensures IntegerPattern(Sign(neg) + Digits.Print(n))
    ensures Parse(Sign(neg) + Digits.Print(n)) == C.Ok(Decimal(neg, n, 0))
  {
    assert Body(Sign(neg) + Digits.Print(n)) == Digits.Print(n);
    assert Fixed(n, 0) == Digits.Print(n);
    ParseSignedFixed(neg, n, 0);
  }

  lemma MakeTen(neg: bool, mag: nat, scale: nat)
    ensures Make(neg, mag * 10, scale + 1) == Make(neg, mag, scale)
  {
    assert (mag * 10) % 10 == 0 && (mag * 10) / 10 == mag;
  }

  lemma {:induction false} MakeShift(neg: bool, mag: nat, scale: nat, k: nat)
    ensures Make(neg, mag * Pow10(k), scale + k) == Make(neg, mag, scale)
  {
    if k == 0 {
      assert mag * Pow10(0) == mag;
    } else {
      var p := Pow10(k - 1);
      assert mag * Pow10(k) == (mag * p) * 10;
      MakeTen(neg, mag * p, scale + k - 1);
      MakeShift(neg, mag, scale, k - 1);
    }
  }

  lemma HundredIs()
    ensures Pow10(2) == 100
  {
    assert Pow10(1) == 10 && Pow10(2) == 10 * Pow10(1);
  }

  lemma TimesHundred(d: Decimal, n: nat)
    requires d.scale <= 2 && n == d.mag * Pow10(2 - d.scale)
    ensures d.mag * 100 == n * Pow10(d.scale)
  {
    HundredIs();
    Pow10Add(2 - d.scale, d.scale);
    var p, q := Pow10(2 - d.scale), Pow10(d.scale);
    assert d.mag * (p * q) == (d.mag * p) * q;
  }

  /** Multiplying what was divided by a hundred gives an integer of at most 40 digits back. */
  lemma HundredBack(neg: bool, n: nat)
    requires |Digits.Print(n)| <= PRECISION
    ensures Mul(DivHundred(Decimal(neg, n, 0)), HUNDRED) == Decimal(neg, n, 0)
  {
    var d := Make(neg, n, 2);
    SignificantExact(neg, n, 2);
    TimesHundred(d, n);
    MakeShift(neg, n, 0, d.scale);
    assert Mul(d, HUNDRED) == Significant(Make(neg, n * Pow10(d.scale), d.scale));
  }

  lemma PrintIntSigned(n: int)
    ensures PrintInt(n) == Sign(n < 0) + Digits.Print(Abs(n))
    ensures Print(Decimal(n < 0, Abs(n), 0)) == PrintInt(n)
  {
    assert [] + Digits.Print(Abs(n)) == Digits.Print(Abs(n));
    assert 0 - n == -n;
  }

  /** Paise to rupees and back: an integer of at most 40 digits is unchanged. */
  lemma PaiseBack(n: int)
    requires |Digits.Print(Abs(n))| <= PRECISION
    ensures FromPaise(PrintInt(n)).Ok? && ToPaise(FromPaise(PrintInt(n)).value) == PrintInt(n)
  {
    PrintIntSigned(n);
    ParseInteger(n < 0, Abs(n));
    HundredBack(n < 0, Abs(n));
    assert Round(Decimal(n < 0, Abs(n), 0), 0) == Decimal(n < 0, Abs(n), 0);
  }

  lemma HalfEvenAtMost(n: nat, m: nat)
    requires m > 0
    ensures HalfEven(n, m) <= n
  {
    var q, r := n / m, n % m;
    assert n == m * q + r;
    MulMonotone(1, m, q);
    if m > 1 { MulMonotone(2, m, q); }
  }

  lemma RoundMagnitude(d: Decimal)
    ensures Round(d, 0).mag <= d.mag && Round(d, 0).scale == 0
  {
    if d.scale > 0 {
      HalfEvenAtMost(d.mag, Pow10(d.scale));
    }
  }

  /** A hundredfold of at most 40 digits is exact. */
  lemma HundredfoldExact(m: Decimal)
    requires |Digits.Print(m.mag * 100)| <= PRECISION
    ensures Mul(m, HUNDRED).scale <= m.scale && Mul(m, HUNDRED).mag <= m.mag * 100
    ensures At(Mul(m, HUNDRED), m.scale) == Coef(m) * 100
  {
    SignificantExact(m.neg, m.mag * 100, m.scale);
    MakeSmaller(m.neg, m.mag * 100, m.scale);
    MakeAt(m.neg, m.mag * 100, m.scale);
  }

  /** Rounding a hundredfold value to an integer is rounding the value to two places. */
  lemma HundredfoldRounds(m: Decimal)
    requires |Digits.Print(m.mag * 100)| <= PRECISION
    ensures At(Round(Mul(m, HUNDRED), 0), 0) == At(Round(m, 2), 2)
  {
    HundredIs();
    HundredfoldExact(m);
    var p, j := Mul(m, HUNDRED), m.scale;
    assert At(m, j + 2) == Coef(m) * 100 == At(p, j);
    RoundNearest(p, 0, j);
    RoundNearest(m, 2, j + 2);
    NearestOnly(At(p, j), Pow10(j), At(Round(p, 0), 0), At(Round(m, 2), 2));
  }

  lemma AtZeroScale(d: Decimal)
    requires d.scale == 0
    ensures At(d, 0) == Coef(d) == Coef(Plain(d))
  {
    assert Coef(d) * Pow10(0) == Coef(d);
  }

  lemma DivHundredAt(d: Decimal)
    requires d.scale == 0 && |Digits.Print(d.mag)| <= PRECISION
    ensures DivHundred(d).scale <= 2 && At(DivHundred(d), 2) == Coef(d)
  {
    SignificantExact(d.neg, d.mag, 2);
    MakeAt(d.neg, d.mag, 2);
  }

  /** Rupees to paise and back: an amount whose hundredfold has at most 40 digits is rounded to two
      places. */
  lemma PaiseRounds(m: Decimal)
    requires |Digits.Print(m.mag * 100)| <= PRECISION
    ensures FromPaise(ToPaise(m)).Ok? && Equals(FromPaise(ToPaise(m)).value, Round(m, 2))
  {
    var p := Mul(m, HUNDRED);
    var q := Round(p, 0);
    HundredfoldExact(m);
    HundredfoldRounds(m);
    RoundMagnitude(p);
    PrintShorter(q.mag, m.mag * 100, PRECISION);
    ParseInteger(IsNegative(q), q.mag);
    DivHundredAt(Plain(q));
    AtZeroScale(q);
    EqualsAt(FromPaise(ToPaise(m)).value, Round(m, 2), 2);
  }
}
