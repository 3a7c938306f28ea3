/** Decimal digit strings of natural numbers and integers. */
module Digits {
  import opened Texts

  function Pow10(k: nat): (p: nat)
    ensures p >= 1
  {
    if k == 0 then 1 else 10 * Pow10(k - 1)
  }

  /** The digits of `n`, without leading zeros; "0" for zero. */
  function Print(n: nat): (t: Text)
    ensures |t| >= 1 && AllDigits(t)
    ensures n > 0 ==> t[0] != ZERO
    ensures n == 0 ==> t == [ZERO]
  {
    if n < 10 then [ZERO + n] else Print(n / 10) + [ZERO + n % 10]
  }

  /** The number a digit string stands for; leading zeros are allowed. */
  function Value(t: Text): nat
    requires AllDigits(t)
  {
    if t == [] then 0 else Value(t[..|t| - 1]) * 10 + (t[|t| - 1] - ZERO)
  }

  /** `String(n)` for an integer. */
  function PrintInt(n: int): Text {
    if n < 0 then [MINUS] + Print(-n) else Print(n)
  }

  lemma {:induction false} ValuePrint(n: nat)
    ensures Value(Print(n)) == n
  {
    if n < 10 {
      assert Print(n)[..0] == [];
    } else {
      ValuePrint(n / 10);
      assert Print(n)[..|Print(n)| - 1] == Print(n / 10);
    }
  }

  lemma {:induction false} PrintValue(t: Text)
    requires AllDigits(t) && t != [] && (t[0] != ZERO || t == [ZERO])
    ensures Print(Value(t)) == t
  {
    var init, last := t[..|t| - 1], t[|t| - 1];
    assert t == init + [last];
    if init == [] {
      assert Value(init) == 0;
    } else {
      PrintValue(init);
      ValuePositive(init);
      assert Value(t) / 10 == Value(init) && Value(t) % 10 == last - ZERO;
    }
  }

  lemma {:induction false} ValuePositive(t: Text)
    requires AllDigits(t) && t != [] && t[0] != ZERO
    ensures Value(t) > 0
  {
    if |t| > 1 {
      ValuePositive(t[..|t| - 1]);
    }
  }

  lemma ValueSnoc(t: Text, c: CodeUnit)
    requires AllDigits(t) && IsDigit(c)
    ensures AllDigits(t + [c]) && Value(t + [c]) == Value(t) * 10 + (c - ZERO)
  {
    assert (t + [c])[..|t|] == t;
  }

  lemma TimesTen(v: nat, p: nat, w: nat)
    ensures (v * p + w) * 10 == v * (10 * p) + w * 10
  {
  }

  lemma {:induction false} ValueConcat(a: Text, b: Text)
    requires AllDigits(a) && AllDigits(b)
    ensures AllDigits(a + b) && Value(a + b) == Value(a) * Pow10(|b|) + Value(b)
  {
    if b == [] {
      assert a + b == a;
    } else {
      var init, last := b[..|b| - 1], b[|b| - 1];
      ValueConcat(a, init);
      assert b == init + [last];
      Assoc(a, init, [last]);
      ValueSnoc(a + init, last);
      TimesTen(Value(a), Pow10(|init|), Value(init));
    }
  }

  lemma {:induction false} ValueBound(t: Text)
    requires AllDigits(t)
    ensures Value(t) < Pow10(|t|)
  {
    if t != [] {
      ValueBound(t[..|t| - 1]);
    }
  }

  lemma {:induction false} Pow10Add(a: nat, b: nat)
    ensures Pow10(a + b) == Pow10(a) * Pow10(b)
  {
    if a > 0 {
      Pow10Add(a - 1, b);
      var p, q := Pow10(a - 1), Pow10(b);
      assert 10 * (p * q) == (10 * p) * q;
    }
  }

  lemma {:induction false} Pow10Monotone(j: nat, k: nat)
    requires j <= k
    ensures Pow10(j) <= Pow10(k)
  {
    if j < k {
      Pow10Monotone(j, k - 1);
    }
  }

  /** Digit strings followed by something that is not a digit determine the number. */
  lemma PrintUnique(m: nat, n: nat, s: Text, t: Text)
    requires Print(m) + s == Print(n) + t
    requires (s == [] || !IsDigit(s[0])) && (t == [] || !IsDigit(t[0]))
    ensures m == n && s == t
  {
    var a, b, u := Print(m), Print(n), Print(m) + s;
    assert forall i | 0 <= i < |a| :: u[i] == a[i];
    assert forall i | 0 <= i < |b| :: u[i] == b[i];
    assert s != [] ==> u[|a|] == s[0];
    assert t != [] ==> u[|b|] == t[0];
    assert |a| == |b|;
    assert a == u[..|a|] == b && s == u[|a|..] == t;
    ValuePrint(m);
    ValuePrint(n);
  }

  lemma PrintIntHead(n: int)
    ensures PrintInt(n) != []
    ensures if n < 0 then PrintInt(n)[0] == MINUS else IsDigit(PrintInt(n)[0])
  {
  }

  lemma PrintIntUnique(m: int, n: int, s: Text, t: Text)
    requires PrintInt(m) + s == PrintInt(n) + t
    requires (s == [] || !IsDigit(s[0])) && (t == [] || !IsDigit(t[0]))
    ensures m == n && s == t
  {
    PrintIntHead(m);
    PrintIntHead(n);
    assert (PrintInt(m) + s)[0] == PrintInt(m)[0] && (PrintInt(n) + t)[0] == PrintInt(n)[0];
    if m < 0 {
      var a, b := Print(-m), Print(-n);
      Assoc([MINUS], a, s);
      Assoc([MINUS], b, t);
      Cancel([MINUS], a + s, [MINUS], b + t);
      PrintUnique(-m, -n, s, t);
    } else {
      PrintUnique(m, n, s, t);
    }
  }
}
