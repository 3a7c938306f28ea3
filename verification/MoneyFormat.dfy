/** Currency text with Indian digit groups: three digits at the end, pairs in front. */
module MoneyFormat {
  import opened Texts
  import opened Decimals
  import opened Money
  import opened MoneyText
  import C = Canonical
  import J = Json

  /** Where the pattern `\B(?=(\d{2})+(?!\d))` matches inside a digit string: in front of an
      even number of digits, and not at the start. */
  predicate CommaBefore(length: nat, p: nat) {
    0 < p < length && (length - p) % 2 == 0
  }

  /** The digits from position `p` on, with every match replaced by a comma. */
  function WithCommas(rest: Text, p: nat): Text
    requires p <= |rest|
    decreases |rest| - p
  {
    if p == |rest| then []
    else (if CommaBefore(|rest|, p) then [COMMA] else []) + [rest[p]] + WithCommas(rest, p + 1)
  }

  function Grouped(digits: Text): Text {
    if |digits| <= 3 then digits
    else
      var n := |digits| - 3;
      WithCommas(digits[..n], 0) + [COMMA] + digits[n..]
  }

  /** `format`; a value that rounds to zero from below keeps its minus sign. */
  function Format(d: Decimal, decimals: nat, symbol: Text): Text {
    var rounded := Round(d, decimals);
    var abs := Fixed(Abs(At(rounded, decimals)), decimals);
    var p := DotIndex(abs);
    Sign(rounded.neg) + symbol + Grouped(abs[..p]) + abs[p..]
  }

  // ----- The groups -----

  function Pairs(digits: Text): (groups: seq<Text>)
    ensures groups != []
  {
    var n := |digits|;
    if n <= 2 then [digits] else Pairs(digits[..n - 2]) + [digits[n - 2..]]
  }

  function Groups(digits: Text): (groups: seq<Text>)
    ensures groups != []
  {
    var n := |digits|;
    if n <= 3 then [digits] else Pairs(digits[..n - 3]) + [digits[n - 3..]]
  }

  function Concat(parts: seq<Text>): Text {
    if parts == [] then [] else parts[0] + Concat(parts[1..])
  }

  lemma {:induction false} ConcatSnoc(parts: seq<Text>, x: Text)
    ensures Concat(parts + [x]) == Concat(parts) + x
  {
    if parts == [] {
      assert [] + [x] == [x];
      assert Concat([x]) == x + Concat([]) == x;
    } else {
      assert (parts + [x])[1..] == parts[1..] + [x];
      ConcatSnoc(parts[1..], x);
      Assoc(parts[0], Concat(parts[1..]), x);
    }
  }

  lemma {:induction false} JoinSnoc(parts: seq<Text>, x: Text)
    requires parts != []
    ensures J.Join(parts + [x]) == J.Join(parts) + [COMMA] + x
  {
    if |parts| == 1 {
      assert (parts + [x])[1..] == [x];
    } else {
      assert (parts + [x])[1..] == parts[1..] + [x];
      JoinSnoc(parts[1..], x);
      Assoc(parts[0] + [COMMA], J.Join(parts[1..]) + [COMMA], x);
      Assoc(parts[0] + [COMMA], J.Join(parts[1..]), [COMMA]);
    }
  }

  lemma {:induction false} CommasSplit(rest: Text, p: nat)
    requires |rest| > 2 && p <= |rest| - 2
    ensures WithCommas(rest, p) == WithCommas(rest[..|rest| - 2], p) + WithCommas(rest, |rest| - 2)
    decreases |rest| - p
  {
    var n := |rest| - 2;
    if p == n {
      assert [] + WithCommas(rest, n) == WithCommas(rest, n);
    } else {
      CommasSplit(rest, p + 1);
      assert CommaBefore(|rest|, p) == CommaBefore(n, p) && rest[..n][p] == rest[p];
      Assoc((if CommaBefore(n, p) then [COMMA] else []) + [rest[p]], WithCommas(rest[..n], p + 1), WithCommas(rest, n));
    }
  }

  lemma LastDigit(rest: Text)
    requires |rest| > 2
    ensures WithCommas(rest, |rest| - 1) == [rest[|rest| - 1]]
  {
    var n := |rest| - 1;
    assert WithCommas(rest, |rest|) == [] && !CommaBefore(|rest|, n);
    assert [] + [rest[n]] + [] == [rest[n]];
  }

  lemma LastPair(rest: Text)
    requires |rest| > 2
    ensures WithCommas(rest, |rest| - 2) == [COMMA] + rest[|rest| - 2..]
  {
    var n := |rest| - 2;
    LastDigit(rest);
    assert CommaBefore(|rest|, n);
    assert rest[n..] == [rest[n]] + [rest[n + 1]];
    Assoc([COMMA], [rest[n]], [rest[n + 1]]);
  }

  lemma {:induction false} CommasArePairs(rest: Text)
    requires rest != []
    ensures WithCommas(rest, 0) == J.Join(Pairs(rest))
  {
    var n := |rest| - 2;
    if n <= 0 {
      FewDigits(rest);
    } else {
      CommasSplit(rest, 0);
      LastPair(rest);
      CommasArePairs(rest[..n]);
      JoinSnoc(Pairs(rest[..n]), rest[n..]);
      Assoc(J.Join(Pairs(rest[..n])), [COMMA], rest[n..]);
    }
  }

  lemma FewDigits(rest: Text)
    requires 1 <= |rest| <= 2
    ensures WithCommas(rest, 0) == rest
  {
    assert WithCommas(rest, |rest|) == [];
    assert |rest| == 2 ==> WithCommas(rest, 1) == [rest[1]];
  }

  lemma {:induction false} PairSizes(rest: Text)
    requires rest != []
    ensures Concat(Pairs(rest)) == rest
    ensures 1 <= |Pairs(rest)[0]| <= 2
    ensures forall i | 1 <= i < |Pairs(rest)| :: |Pairs(rest)[i]| == 2
  {
    var n := |rest| - 2;
    if n <= 0 {
      assert Concat(Pairs(rest)) == rest + Concat([]) == rest;
    } else {
      PairSizes(rest[..n]);
      ConcatSnoc(Pairs(rest[..n]), rest[n..]);
      assert rest == rest[..n] + rest[n..];
    }
  }

  /** The last group has three digits, those before it two, the first one or two. */
  predicate SizesOk(groups: seq<Text>) {
    && |groups| >= 2 && |groups[|groups| - 1]| == 3 && 1 <= |groups[0]| <= 2
    && forall i | 1 <= i < |groups| - 1 :: |groups[i]| == 2
  }

  lemma ManyDigits(front: Text, last3: Text)
    requires front != [] && |last3| == 3
    ensures SizesOk(Pairs(front) + [last3]) && Concat(Pairs(front) + [last3]) == front + last3
    ensures WithCommas(front, 0) + [COMMA] + last3 == J.Join(Pairs(front) + [last3])
  {
    CommasArePairs(front);
    PairSizes(front);
    JoinSnoc(Pairs(front), last3);
    ConcatSnoc(Pairs(front), last3);
  }

  lemma FewerDigits(digits: Text)
    ensures Concat([digits]) == digits && J.Join([digits]) == digits
  {
    assert Concat([digits]) == digits + Concat([]);
  }

  lemma GroupedParts(front: Text, last3: Text)
    requires front != [] && |last3| == 3
    ensures Grouped(front + last3) == WithCommas(front, 0) + [COMMA] + last3
    ensures Groups(front + last3) == Pairs(front) + [last3]
  {
    var t := front + last3;
    assert t[..|t| - 3] == front && t[|t| - 3..] == last3;
  }

  lemma GroupedLong(digits: Text)
    requires |digits| > 3
    ensures Grouped(digits) == J.Join(Groups(digits)) && Concat(Groups(digits)) == digits && SizesOk(Groups(digits))
  {
    var front, last3 := digits[..|digits| - 3], digits[|digits| - 3..];
    assert front + last3 == digits;
    GroupedParts(front, last3);
    ManyDigits(front, last3);
  }

  /** The grouped digits are groups joined by commas: the last of three digits, those before it
      of two, the first of one or two; a number of at most three digits is one group. */
  lemma GroupedShape(digits: Text)
    ensures Grouped(digits) == J.Join(Groups(digits)) && Concat(Groups(digits)) == digits
    ensures if |digits| <= 3 then Groups(digits) == [digits] else SizesOk(Groups(digits))
  {
    if |digits| <= 3 {
      FewerDigits(digits);
    } else {
      GroupedLong(digits);
    }
  }

  // ----- Deleting the commas -----

  function DeleteCommas(t: Text): Text {
    if t == [] then [] else (if t[0] == COMMA then [] else [t[0]]) + DeleteCommas(t[1..])
  }

  lemma {:induction false} DeleteConcat(a: Text, b: Text)
    ensures DeleteCommas(a + b) == DeleteCommas(a) + DeleteCommas(b)
  {
    if a == [] {
      assert a + b == b;
    } else {
      assert (a + b)[1..] == a[1..] + b;
      DeleteConcat(a[1..], b);
      Assoc(if a[0] == COMMA then [] else [a[0]], DeleteCommas(a[1..]), DeleteCommas(b));
    }
  }

  lemma {:induction false} DeleteNothing(t: Text)
    requires COMMA !in t
    ensures DeleteCommas(t) == t
  {
    if t != [] {
      DeleteNothing(t[1..]);
      assert t == [t[0]] + t[1..];
    }
  }

  lemma DeleteStep(comma: bool, c: CodeUnit, tail: Text)
    requires c != COMMA
    ensures DeleteCommas((if comma then [COMMA] else []) + [c] + tail) == [c] + DeleteCommas(tail)
  {
    if comma {
      assert ([COMMA] + [c] + tail)[1..] == [c] + tail;
    } else {
      assert [] + [c] + tail == [c] + tail;
    }
    assert ([c] + tail)[1..] == tail;
  }

  lemma {:induction false} CommasDeleted(rest: Text, p: nat)
    requires COMMA !in rest && p <= |rest|
    ensures DeleteCommas(WithCommas(rest, p)) == rest[p..]
    decreases |rest| - p
  {
    if p < |rest| {
      CommasDeleted(rest, p + 1);
      DeleteStep(CommaBefore(|rest|, p), rest[p], WithCommas(rest, p + 1));
      assert rest[p..] == [rest[p]] + rest[p + 1..];
    }
  }

  lemma OneComma()
    ensures DeleteCommas([COMMA]) == []
  {
    assert [COMMA][1..] == [];
  }

  /** Deleting the commas restores the digits. */
  lemma GroupedDeleted(digits: Text)
    requires COMMA !in digits
    ensures DeleteCommas(Grouped(digits)) == digits
  {
    var n := |digits| - 3;
    if n <= 0 {
      DeleteNothing(digits);
    } else {
      var front, last3 := digits[..n], digits[n..];
      CommasDeleted(front, 0);
      DeleteConcat(WithCommas(front, 0) + [COMMA], last3);
      DeleteConcat(WithCommas(front, 0), [COMMA]);
      OneComma();
      DeleteNothing(last3);
      assert digits == front + last3 && front[0..] == front;
    }
  }

  // ----- Reading a formatted amount -----

  /** Drops the symbol and the commas, and reads what is left. */
  function ReadFormatted(t: Text, symbol: Text): C.Result<Decimal> {
    var neg := t != [] && t[0] == MINUS;
    var skip := |Sign(neg)| + |symbol|;
    if |t| < skip then C.TypeError else Parse(Sign(neg) + DeleteCommas(t[skip..]))
  }

  lemma NoCommas(t: Text, p: nat)
    requires COMMA !in t && p <= |t|
    ensures COMMA !in t[..p] && COMMA !in t[p..]
  {
  }

  lemma GroupedWhole(t: Text, p: nat)
    requires COMMA !in t && p <= |t|
    ensures DeleteCommas(Grouped(t[..p]) + t[p..]) == t
  {
    var whole, frac := t[..p], t[p..];
    NoCommas(t, p);
    assert t == whole + frac;
    GroupedDeleted(whole);
    DeleteConcat(Grouped(whole), frac);
    DeleteNothing(frac);
  }

  lemma FixedPlain(n: nat, places: nat)
    ensures COMMA !in Fixed(n, places)
  {
    var t := Padded(n, places);
    assert COMMA !in t;
  }

  lemma RoundedMake(r: Decimal, k: nat)
    requires Decimals.Canonical(r) && r.scale <= k
    ensures Make(r.neg, Abs(At(r, k)), k) == r
  {
    AbsAt(r, k);
    MakeShift(r.neg, r.mag, r.scale, k - r.scale);
    MakeCanonical(r);
  }

  lemma ReadsBack(neg: bool, symbol: Text, whole: Text, frac: Text, value: Decimal)
    requires whole != [] && (symbol == [] || symbol[0] != MINUS) && whole[0] != MINUS
    requires Parse(Sign(neg) + DeleteCommas(whole + frac)) == C.Ok(value)
    ensures ReadFormatted(Sign(neg) + symbol + whole + frac, symbol) == C.Ok(value)
  {
    FormatHead(neg, symbol, whole, frac);
  }

  lemma FixedReads(neg: bool, n: nat, places: nat, symbol: Text)
    requires symbol == [] || symbol[0] != MINUS
    ensures var abs := Fixed(n, places); var p := DotIndex(abs);
            ReadFormatted(Sign(neg) + symbol + Grouped(abs[..p]) + abs[p..], symbol) == C.Ok(Make(neg, n, places))
  {
    var abs := Fixed(n, places);
    var p := DotIndex(abs);
    FixedPlain(n, places);
    FixedShape(n, places);
    GroupedWhole(abs, p);
    GroupedHead(abs[..p]);
    ParseSignedFixed(neg, n, places);
    ReadsBack(neg, symbol, Grouped(abs[..p]), abs[p..], Make(neg, n, places));
  }

  /** Reading a formatted amount gives exactly the rounded value, and its sign even when it is
      zero. */
  lemma FormatReads(d: Decimal, decimals: nat, symbol: Text)
    requires Decimals.Canonical(d) && (symbol == [] || symbol[0] != MINUS)
    ensures ReadFormatted(Format(d, decimals, symbol), symbol) == C.Ok(Round(d, decimals))
  {
    var r := Round(d, decimals);
    RoundedMake(r, decimals);
    FixedReads(r.neg, Abs(At(r, decimals)), decimals, symbol);
  }

  lemma GroupedHead(digits: Text)
    requires digits != []
    ensures Grouped(digits) != [] && Grouped(digits)[0] == digits[0]
  {
  }

  lemma FormatHead(neg: bool, symbol: Text, whole: Text, frac: Text)
    requires whole != [] && (symbol == [] || symbol[0] != MINUS) && whole[0] != MINUS
    ensures var t := Sign(neg) + symbol + whole + frac; var skip := |Sign(neg)| + |symbol|;
            t != [] && (t[0] == MINUS <==> neg) && |t| >= skip && t[skip..] == whole + frac
  {
  }

  // ----- Zero with a sign -----

  lemma FixedZero()
    ensures Fixed(0, 2) == Ascii("0.00") && DotIndex(Fixed(0, 2)) == 1
  {
    assert Padded(0, 2) == Repeat(ZERO, 2) + [ZERO] == [ZERO, ZERO, ZERO];
    assert Fixed(0, 2) == [ZERO, DOT, ZERO, ZERO];
  }

  /** A value that rounds to zero is printed with the sign that it had before. */
  lemma ZeroFormatted(d: Decimal, symbol: Text)
    requires Round(d, 2).mag == 0
    ensures Format(d, 2, symbol) == Sign(d.neg) + symbol + Ascii("0.00")
  {
    var abs := Ascii("0.00");
    FixedZero();
    ZeroTimes(Round(d, 2), 2);
    assert Grouped(abs[..1]) + abs[1..] == abs;
    Assoc(Sign(d.neg) + symbol, Grouped(abs[..1]), abs[1..]);
  }

  lemma ZeroTimes(d: Decimal, k: nat)
    requires d.mag == 0 && d.scale <= k
    ensures At(d, k) == 0
  {
  }

  /** So -0.001 is printed as minus zero. */
  lemma MinusZero(symbol: Text)
    ensures Format(Decimal(true, 1, 3), 2, symbol) == [MINUS] + symbol + Ascii("0.00")
  {
    var d := Decimal(true, 1, 3);
    assert Round(d, 2) == Make(true, 0, 2);
    ZeroFormatted(d, symbol);
  }
}
