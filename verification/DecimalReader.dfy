/** Decimal text, read apart from the parser and with its own signs and digits: which texts are
    accepted, what they stand for, and how a value is printed. */
module DecimalReader {
  import opened Texts
  import opened Digits
  import opened Decimals
  import C = Canonical
  import JR = JsonReader
  import M = MoneyText
  import Money

  predicate Figures(t: Text) {
    forall i | 0 <= i < |t| :: JR.IsDecimalDigit(t[i])
  }

  /** Whole digits, and digits behind the point if there is one. */
  predicate WellSpelled(whole: Text, frac: Text) {
    whole != [] && Figures(whole) && Figures(frac)
  }

  function Pointed(whole: Text, frac: Text): Text {
    whole + if frac == [] then [] else [0x2E] + frac
  }

  function Spelling(neg: bool, whole: Text, frac: Text): Text {
    (if neg then [0x2D] else []) + Pointed(whole, frac)
  }

  /** White space and line terminators. */
  predicate Blank(c: CodeUnit) {
    || c in {0x09, 0x0A, 0x0B, 0x0C, 0x0D, 0x20, 0xA0, 0x1680, 0x2028, 0x2029, 0x202F, 0x205F, 0x3000, 0xFEFF}
    || 0x2000 <= c <= 0x200A
  }

  predicate Blanks(t: Text) {
    forall i | 0 <= i < |t| :: Blank(t[i])
  }

  function Around(a: Text, t: Text, b: Text): Text {
    a + t + b
  }

  function WholeNumber(whole: Text, frac: Text): nat
    requires WellSpelled(whole, frac)
  {
    JR.DigitsValue(whole + frac)
  }

  // ----- What is accepted -----

  lemma PointedRead(whole: Text, frac: Text)
    requires WellSpelled(whole, frac)
    ensures var t := Pointed(whole, frac);
            M.Unsigned(t) && M.Scale(t) == |frac| && M.AllButDot(t) == whole + frac && t[0] != MINUS
  {
    var t := Pointed(whole, frac);
    M.DotIndexAt(t, |whole|);
    assert t[..|whole|] == whole;
    if frac != [] { assert t[|whole| + 1..] == frac; }
  }

  lemma UnsignedSpelled(t: Text)
    requires M.Unsigned(t)
    ensures exists whole, frac :: t == Pointed(whole, frac) && WellSpelled(whole, frac)
  {
    var p := M.DotIndex(t);
    var whole, frac := t[..p], if p == |t| then [] else t[p + 1..];
    assert t == Pointed(whole, frac) && WellSpelled(whole, frac);
  }

  lemma {:induction false} TrimmedStart(a: Text, t: Text)
    requires Blanks(a) && t != [] && !Blank(t[0])
    ensures M.TrimStart(a + t) == t
  {
    if a == [] {
      assert a + t == t;
    } else {
      assert (a + t)[1..] == a[1..] + t;
      TrimmedStart(a[1..], t);
    }
  }

  lemma {:induction false} TrimmedEnd(t: Text, b: Text)
    requires Blanks(b) && t != [] && !Blank(t[|t| - 1])
    ensures M.TrimEnd(t + b) == t
  {
    if b == [] {
      assert t + b == t;
    } else {
      var n := |b| - 1;
      assert (t + b)[..|t + b| - 1] == t + b[..n] && (t + b)[|t + b| - 1] == b[n];
      TrimmedEnd(t, b[..n]);
    }
  }

  lemma SpellingEnds(neg: bool, whole: Text, frac: Text)
    requires WellSpelled(whole, frac)
    ensures var t := Spelling(neg, whole, frac); t != [] && !Blank(t[0]) && !Blank(t[|t| - 1])
  {
    var t, last := Spelling(neg, whole, frac), if frac == [] then whole else frac;
    assert t[|t| - 1] == last[|last| - 1];
    assert t[0] == if neg then 0x2D else whole[0];
  }

  lemma Trimmed(a: Text, neg: bool, whole: Text, frac: Text, b: Text)
    requires Blanks(a) && Blanks(b) && WellSpelled(whole, frac)
    ensures M.Trim(Around(a, Spelling(neg, whole, frac), b)) == Spelling(neg, whole, frac)
  {
    var t := Spelling(neg, whole, frac);
    SpellingEnds(neg, whole, frac);
    Assoc(a, t, b);
    assert (t + b)[0] == t[0];
    TrimmedStart(a, t + b);
    TrimmedEnd(t, b);
  }

  /** The value of a spelled number, in lowest terms. */
  predicate StandsFor(d: Decimal, neg: bool, whole: Text, frac: Text)
    requires WellSpelled(whole, frac)
  {
    && d.neg == neg && d.scale <= |frac| && d.mag * Pow10(|frac| - d.scale) == WholeNumber(whole, frac)
    && (d.scale > 0 ==> d.mag % 10 != 0)
  }

  lemma MadeFor(neg: bool, whole: Text, frac: Text, digits: Text, n: nat)
    requires WellSpelled(whole, frac) && digits == whole + frac && AllDigits(digits) && n == Value(digits)
    ensures StandsFor(Make(neg, n, |frac|), neg, whole, frac)
  {
    JR.ValuesAgree(digits);
  }

  lemma SpellingRead(neg: bool, whole: Text, frac: Text, t: Text)
    requires WellSpelled(whole, frac) && t == Spelling(neg, whole, frac)
    ensures M.DecimalPattern(t) && M.Read(t) == Make(neg, Value(whole + frac), |frac|)
  {
    PointedRead(whole, frac);
    assert M.Body(t) == Pointed(whole, frac);
  }

  /** A spelled number between blanks is accepted, and stands for what its digits say. */
  lemma ParseReads(a: Text, neg: bool, whole: Text, frac: Text, b: Text)
    requires Blanks(a) && Blanks(b) && WellSpelled(whole, frac)
    ensures M.Parse(Around(a, Spelling(neg, whole, frac), b)).Ok?
    ensures StandsFor(M.Parse(Around(a, Spelling(neg, whole, frac), b)).value, neg, whole, frac)
  {
    Trimmed(a, neg, whole, frac, b);
    SpellingRead(neg, whole, frac, Spelling(neg, whole, frac));
    MadeFor(neg, whole, frac, whole + frac, Value(whole + frac));
  }

  lemma {:induction false} StartTrimmed(t: Text)
    ensures exists a :: Blanks(a) && t == a + M.TrimStart(t)
  {
    if t != [] && M.IsSpace(t[0]) {
      StartTrimmed(t[1..]);
      var a :| Blanks(a) && t[1..] == a + M.TrimStart(t[1..]);
      assert Blanks([t[0]] + a) && t == ([t[0]] + a) + M.TrimStart(t);
    } else {
      assert Blanks([]) && t == [] + M.TrimStart(t);
    }
  }

  lemma {:induction false} EndTrimmed(t: Text)
    ensures exists b :: Blanks(b) && t == M.TrimEnd(t) + b
  {
    if t != [] && M.IsSpace(t[|t| - 1]) {
      var n := |t| - 1;
      EndTrimmed(t[..n]);
      var b :| Blanks(b) && t[..n] == M.TrimEnd(t[..n]) + b;
      assert Blanks(b + [t[n]]) && t == M.TrimEnd(t) + (b + [t[n]]);
    } else {
      assert Blanks([]) && t == M.TrimEnd(t) + [];
    }
  }

  predicate SpelledAs(s: Text, a: Text, neg: bool, whole: Text, frac: Text, b: Text) {
    Blanks(a) && Blanks(b) && WellSpelled(whole, frac) && s == Around(a, Spelling(neg, whole, frac), b)
  }

  lemma PatternSpelled(t: Text)
    requires M.DecimalPattern(t)
    ensures exists neg, whole, frac :: WellSpelled(whole, frac) && t == Spelling(neg, whole, frac)
  {
    UnsignedSpelled(M.Body(t));
    var whole, frac :| M.Body(t) == Pointed(whole, frac) && WellSpelled(whole, frac);
    assert t == Spelling(M.Body(t) != t, whole, frac);
  }

  lemma TrimmedBetween(s: Text)
    ensures exists a, b :: Blanks(a) && Blanks(b) && s == Around(a, M.Trim(s), b)
  {
    StartTrimmed(s);
    var a :| Blanks(a) && s == a + M.TrimStart(s);
    EndTrimmed(M.TrimStart(s));
    var b :| Blanks(b) && M.TrimStart(s) == M.TrimEnd(M.TrimStart(s)) + b;
    Assoc(a, M.Trim(s), b);
    assert s == Around(a, M.Trim(s), b);
  }

  /** The accepted texts are the spelled numbers between blanks. */
  lemma ParseOnly(s: Text)
    ensures M.Parse(s).Ok? <==> exists a, neg, whole, frac, b :: SpelledAs(s, a, neg, whole, frac, b)
  {
    if a, neg, whole, frac, b :| SpelledAs(s, a, neg, whole, frac, b) {
      ParseReads(a, neg, whole, frac, b);
    }
    if M.Parse(s).Ok? {
      TrimmedBetween(s);
      var a, b :| Blanks(a) && Blanks(b) && s == Around(a, M.Trim(s), b);
      PatternSpelled(M.Trim(s));
      var neg, whole, frac :| WellSpelled(whole, frac) && M.Trim(s) == Spelling(neg, whole, frac);
      assert SpelledAs(s, a, neg, whole, frac, b);
    }
  }

  // ----- What is printed -----

  /** A canonical value is printed with a minus if it is negative, without leading zeros, and with
      exactly its decimals. */
  lemma PrintSpells(d: Decimal)
    requires Decimals.Canonical(d)
    ensures exists whole, frac ::
              && WellSpelled(whole, frac) && M.Print(d) == Spelling(d.neg && d.mag > 0, whole, frac)
              && (|whole| > 1 ==> whole[0] != 0x30) && |frac| == d.scale && WholeNumber(whole, frac) == d.mag
  {
    var t := M.Padded(d.mag, d.scale);
    var p := |t| - d.scale;
    M.PaddedValue(d.mag, d.scale);
    JR.ValuesAgree(t);
    assert t[..p] + t[p..] == t;
    assert M.Fixed(d.mag, d.scale) == Pointed(t[..p], t[p..]);
    assert |t[..p]| > 1 ==> t[0] != 0x30;
    assert WellSpelled(t[..p], t[p..]) && M.Print(d) == Spelling(d.neg && d.mag > 0, t[..p], t[p..]);
  }

  // ----- Amounts of a request -----

  /** The value of `^\d+(\.\d{1,4})?$` in units of 0.0001, without blanks around; -1 for any other
      text. */
  function AmountOf(t: Text): int {
    var n := JR.DigitCount(t);
    if n == 0 then -1
    else if n == |t| then JR.DigitsValue(t) * 10000
    else
      var frac := t[n + 1..];
      if t[n] != 0x2E || !(1 <= |frac| <= 4) || !Figures(frac) then -1
      else JR.DigitsValue(t[..n] + frac) * Pow10(4 - |frac|)
  }

  lemma PointAt(t: Text, n: nat)
    requires n == JR.DigitCount(t) && (n < |t| ==> t[n] == DOT)
    ensures M.DotIndex(t) == n
  {
    M.DotIndexAt(t, n);
  }

  lemma CountIs(t: Text, n: nat)
    requires n <= |t| && Figures(t[..n]) && (n < |t| ==> !JR.IsDecimalDigit(t[n]))
    ensures JR.DigitCount(t) == n
  {
    JR.CountedAll(t[..n], t[n..]);
    assert t == t[..n] + t[n..];
  }

  /** The schema accepts what has an amount. */
  lemma AmountAccepted(t: Text)
    ensures M.Unsigned(t) && M.Scale(t) <= 4 <==> AmountOf(t) >= 0
  {
    var n := JR.DigitCount(t);
    if M.Unsigned(t) {
      CountIs(t, M.DotIndex(t));
    } else if AmountOf(t) >= 0 {
      PointAt(t, n);
    }
    if M.Unsigned(t) && M.Scale(t) <= 4 && n < |t| {
      MulMonotone(0, JR.DigitsValue(t[..n] + t[n + 1..]), Pow10(4 - |t[n + 1..]|));
    }
  }

  lemma TenThousand(d: nat, n: nat, scale: nat, places: nat)
    requires scale <= places <= 4 && d * Pow10(places - scale) == n
    ensures d * Pow10(4 - scale) == n * Pow10(4 - places)
  {
    TimesPow10(d, places - scale, 4 - places);
  }

  lemma PlainRead(whole: Text, frac: Text, t: Text)
    requires WellSpelled(whole, frac) && t == Pointed(whole, frac)
    ensures M.Parse(t).Ok? && StandsFor(M.Parse(t).value, false, whole, frac)
  {
    assert Spelling(false, whole, frac) == t;
    assert Around([], t, []) == t;
    ParseReads([], false, whole, frac, []);
  }

  lemma AmountShape(t: Text, whole: Text, frac: Text)
    requires AmountOf(t) >= 0 && whole == t[..JR.DigitCount(t)]
    requires frac == if |whole| == |t| then [] else t[|whole| + 1..]
    ensures WellSpelled(whole, frac) && |frac| <= 4 && t == Pointed(whole, frac)
    ensures AmountOf(t) == WholeNumber(whole, frac) * Pow10(4 - |frac|)
  {
    Powers();
    if frac == [] { assert whole + frac == t; }
  }

  lemma AmountStands(d: Decimal, whole: Text, frac: Text, n: nat)
    requires WellSpelled(whole, frac) && |frac| <= 4 && StandsFor(d, false, whole, frac)
    requires n == WholeNumber(whole, frac)
    ensures !d.neg && d.scale <= 4 && d.mag * Pow10(4 - d.scale) == n * Pow10(4 - |frac|)
  {
    TenThousand(d.mag, n, d.scale, |frac|);
  }

  /** An accepted text parses to its amount. */
  lemma AmountParsed(t: Text)
    requires AmountOf(t) >= 0
    ensures var d := M.Parse(t);
            d.Ok? && !d.value.neg && d.value.scale <= 4 && d.value.mag * Pow10(4 - d.value.scale) == AmountOf(t)
  {
    var whole := t[..JR.DigitCount(t)];
    var frac := if |whole| == |t| then [] else t[|whole| + 1..];
    AmountShape(t, whole, frac);
    PlainRead(whole, frac, t);
    AmountStands(M.Parse(t).value, whole, frac, WholeNumber(whole, frac));
  }

  lemma Powers()
    ensures Pow10(4) == 10000
  {
    assert Pow10(1) == 10 && Pow10(2) == 100 && Pow10(3) == 1000;
  }

  // ----- Paise -----

  lemma IntegerSpelled(neg: bool, whole: Text)
    requires WellSpelled(whole, [])
    ensures M.IntegerPattern(Spelling(neg, whole, [])) && M.Body(Spelling(neg, whole, [])) == whole
  {
    assert whole + [] == whole;
  }

  lemma IntegerParsed(neg: bool, whole: Text, t: Text)
    requires WellSpelled(whole, []) && t == Spelling(neg, whole, [])
    ensures M.Parse(t) == C.Ok(Decimal(neg, JR.DigitsValue(whole), 0))
  {
    assert Around([], t, []) == t && whole + [] == whole;
    ParseReads([], neg, whole, [], []);
    var d := M.Parse(t).value;
    assert d.mag * Pow10(0) == d.mag;
  }

  /** Paise are read from digits with or without a minus, and from nothing else: a hundredth of what
      they spell, exactly for at most 40 digits. */
  lemma PaiseRead(t: Text)
    ensures M.FromPaise(t).Ok? <==> exists neg, whole :: WellSpelled(whole, []) && t == Spelling(neg, whole, [])
    ensures forall neg, whole | WellSpelled(whole, []) && t == Spelling(neg, whole, []) ::
              var n := JR.DigitsValue(whole);
              |Print(n)| <= 40 ==>
                M.FromPaise(t).Ok? && M.FromPaise(t).value.scale <= 2
                && At(M.FromPaise(t).value, 2) == if neg then 0 - n else n
  {
    if M.FromPaise(t).Ok? {
      assert t == Spelling(M.Body(t) != t, M.Body(t), []) && WellSpelled(M.Body(t), []);
    }
    forall neg, whole | WellSpelled(whole, []) && t == Spelling(neg, whole, [])
      ensures M.FromPaise(t) == C.Ok(Money.DivHundred(Decimal(neg, JR.DigitsValue(whole), 0)))
    {
      IntegerSpelled(neg, whole);
      IntegerParsed(neg, whole, t);
    }
    forall neg, whole | WellSpelled(whole, []) && t == Spelling(neg, whole, [])
                        && |Print(JR.DigitsValue(whole))| <= 40
      ensures var r := Money.DivHundred(Decimal(neg, JR.DigitsValue(whole), 0)); var n := JR.DigitsValue(whole);
              r.scale <= 2 && At(r, 2) == if neg then 0 - n else n
    {
      M.DivHundredAt(Decimal(neg, JR.DigitsValue(whole), 0));
    }
  }
}
