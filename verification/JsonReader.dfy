/** A reader of JSON text (RFC 8259), written apart from the printer and with its own punctuation.
    It is strict: it accepts a value in the one spelling that `JSON.stringify` gives it, without
    white space, with integers only. What is printed reads back. */
module JsonReader {
  import opened Texts
  import Digits
  import J = Json

  /** What was read, and the text behind it. */
  datatype Reading<+T> = Found(value: T, rest: Text) | Failed

  predicate IsHighUnit(c: CodeUnit) { 0xD800 <= c <= 0xDBFF }

  predicate IsLowUnit(c: CodeUnit) { 0xDC00 <= c <= 0xDFFF }

  predicate IsDecimalDigit(c: CodeUnit) { 0x30 <= c <= 0x39 }

  // ----- Strings -----

  /** Lower-case hexadecimal; -1 for anything else. */
  function HexValue(c: CodeUnit): int {
    if 0x30 <= c <= 0x39 then c - 0x30 else if 0x61 <= c <= 0x66 then c - 0x61 + 10 else -1
  }

  function ReadHex(t: Text): Reading<CodeUnit> {
    if |t| < 4 || HexValue(t[0]) < 0 || HexValue(t[1]) < 0 || HexValue(t[2]) < 0 || HexValue(t[3]) < 0 then Failed
    else Found(HexValue(t[0]) * 4096 + HexValue(t[1]) * 256 + HexValue(t[2]) * 16 + HexValue(t[3]), t[4..])
  }

  /** Only control characters without a short form, and surrogates, are spelled with four digits. */
  predicate NeedsHex(c: CodeUnit) {
    (c < 0x20 && c != 0x08 && c != 0x09 && c != 0x0A && c != 0x0C && c != 0x0D) || IsHighUnit(c) || IsLowUnit(c)
  }

  function ReadEscape(t: Text): (r: Reading<Text>)
    ensures r.Found? ==> |r.rest| < |t| && |r.value| == 1
  {
    if t == [] then Failed
    else if t[0] == 0x22 || t[0] == 0x5C then Found([t[0]], t[1..])
    else if t[0] == 0x62 then Found([0x08], t[1..])
    else if t[0] == 0x74 then Found([0x09], t[1..])
    else if t[0] == 0x6E then Found([0x0A], t[1..])
    else if t[0] == 0x66 then Found([0x0C], t[1..])
    else if t[0] == 0x72 then Found([0x0D], t[1..])
    else if t[0] == 0x75 then
      var u := ReadHex(t[1..]);
      if u.Found? && NeedsHex(u.value) then Found([u.value], u.rest) else Failed
    else Failed
  }

  /** One character of a string: a unit, a surrogate pair, or what an escape stands for. */
  function ReadChar(t: Text): (r: Reading<Text>)
    ensures r.Found? ==> |r.rest| < |t| && 1 <= |r.value| <= 2
  {
    if t == [] || t[0] == 0x22 || t[0] < 0x20 || IsLowUnit(t[0]) then Failed
    else if t[0] == 0x5C then ReadEscape(t[1..])
    else if IsHighUnit(t[0]) then
      if |t| >= 2 && IsLowUnit(t[1]) then Found(t[..2], t[2..]) else Failed
    else Found(t[..1], t[1..])
  }

  /** A string behind its opening quote. Two escapes never stand for a surrogate pair. */
  function ReadChars(t: Text): (r: Reading<Text>)
    ensures r.Found? ==> |r.rest| < |t|
    decreases |t|
  {
    if t == [] then Failed
    else if t[0] == 0x22 then Found([], t[1..])
    else
      var c := ReadChar(t);
      if c.Failed? then Failed
      else
        var more := ReadChars(c.rest);
        if more.Failed? then Failed
        else if |c.value| == 1 && IsHighUnit(c.value[0]) && more.value != [] && IsLowUnit(more.value[0]) then Failed
        else Found(c.value + more.value, more.rest)
  }

  function ReadString(t: Text): (r: Reading<Text>)
    ensures r.Found? ==> |r.rest| < |t|
  {
    if t == [] || t[0] != 0x22 then Failed else ReadChars(t[1..])
  }

  // ----- Integers -----

  /** How many digits the text begins with. */
  function DigitCount(t: Text): (n: nat)
    ensures n <= |t| && (forall i | 0 <= i < n :: IsDecimalDigit(t[i])) && (n < |t| ==> !IsDecimalDigit(t[n]))
  {
    if t == [] || !IsDecimalDigit(t[0]) then 0 else 1 + DigitCount(t[1..])
  }

  function DigitsValue(t: Text): nat
    requires forall i | 0 <= i < |t| :: IsDecimalDigit(t[i])
  {
    if t == [] then 0
    else
      assert IsDecimalDigit(t[|t| - 1]);
      DigitsValue(t[..|t| - 1]) * 10 + t[|t| - 1] - 0x30
  }

  function ReadNatural(t: Text): (r: Reading<nat>)
    ensures r.Found? ==> |r.rest| < |t|
  {
    var n := DigitCount(t);
    if n == 0 || (n > 1 && t[0] == 0x30) then Failed else Found(DigitsValue(t[..n]), t[n..])
  }

  function ReadInteger(t: Text): (r: Reading<int>)
    ensures r.Found? ==> |r.rest| < |t|
  {
    if t != [] && t[0] == 0x2D then
      var n := ReadNatural(t[1..]);
      if n.Failed? || n.value == 0 then Failed else Found(0 - n.value, n.rest)
    else ReadNatural(t)
  }

  // ----- Values -----

  function ReadWord(t: Text, word: Text, j: J.Json): (r: Reading<J.Json>)
    requires word != []
    ensures r.Found? ==> |r.rest| < |t|
  {
    if |t| >= |word| && t[..|word|] == word then Found(j, t[|word|..]) else Failed
  }

  function Follows(t: Text, c: CodeUnit): bool {
    t != [] && t[0] == c
  }

  function ReadValue(t: Text): (r: Reading<J.Json>)
    ensures r.Found? ==> |r.rest| < |t|
    decreases |t|, 1
  {
    if t == [] then Failed
    else if t[0] == 0x6E then ReadWord(t, [0x6E, 0x75, 0x6C, 0x6C], J.JNull)
    else if t[0] == 0x74 then ReadWord(t, [0x74, 0x72, 0x75, 0x65], J.JBool(true))
    else if t[0] == 0x66 then ReadWord(t, [0x66, 0x61, 0x6C, 0x73, 0x65], J.JBool(false))
    else if t[0] == 0x22 then
      var s := ReadString(t);
      if s.Failed? then Failed else Found(J.JString(s.value), s.rest)
    else if t[0] == 0x5B then
      var items := if Follows(t[1..], 0x5D) then Found([], t[2..]) else ReadItems(t[1..]);
      if items.Failed? then Failed else Found(J.JArray(items.value), items.rest)
    else if t[0] == 0x7B then
      var fields := if Follows(t[1..], 0x7D) then Found([], t[2..]) else ReadFields(t[1..]);
      if fields.Failed? then Failed else Found(J.JObject(fields.value), fields.rest)
    else
      var n := ReadInteger(t);
      if n.Failed? then Failed else Found(J.JNumber(n.value), n.rest)
  }

  function ReadItems(t: Text): (r: Reading<seq<J.Json>>)
    ensures r.Found? ==> |r.rest| < |t|
    decreases |t|, 2
  {
    var v := ReadValue(t);
    if v.Failed? then Failed
    else if Follows(v.rest, 0x5D) then Found([v.value], v.rest[1..])
    else if Follows(v.rest, 0x2C) then
      var more := ReadItems(v.rest[1..]);
      if more.Failed? then Failed else Found([v.value] + more.value, more.rest)
    else Failed
  }

  function ReadField(t: Text): (r: Reading<J.Entry<J.Json>>)
    ensures r.Found? ==> |r.rest| < |t|
    decreases |t|, 2
  {
    var key := ReadString(t);
    if key.Failed? || !Follows(key.rest, 0x3A) then Failed
    else
      var v := ReadValue(key.rest[1..]);
      if v.Failed? then Failed else Found(J.Entry(key.value, v.value), v.rest)
  }

  function ReadFields(t: Text): (r: Reading<seq<J.Entry<J.Json>>>)
    ensures r.Found? ==> |r.rest| < |t|
    decreases |t|, 3
  {
    var f := ReadField(t);
    if f.Failed? then Failed
    else if Follows(f.rest, 0x7D) then Found([f.value], f.rest[1..])
    else if Follows(f.rest, 0x2C) then
      var more := ReadFields(f.rest[1..]);
      if more.Failed? then Failed else Found([f.value] + more.value, more.rest)
    else Failed
  }

  // ----- What is printed reads back -----

  lemma HexReads(d: int)
    requires 0 <= d < 16
    ensures HexValue(J.HexDigit(d)) == d
  {
  }

  lemma Hex4Reads(c: CodeUnit, x: Text)
    ensures ReadHex(J.Hex4(c) + x) == Found(c, x)
  {
    var h := J.Hex4(c);
    assert (h + x)[0] == h[0] && (h + x)[1] == h[1] && (h + x)[2] == h[2] && (h + x)[3] == h[3] && (h + x)[4..] == x;
    HexReads(c / 4096);
    HexReads(c / 256 % 16);
    HexReads(c / 16 % 16);
    HexReads(c % 16);
    J.Nibbles(c);
  }

  lemma EscapeReads(c: CodeUnit, x: Text)
    requires J.EscapeUnit(c)[0] == 0x5C && c != 0x5C
    ensures ReadEscape(J.EscapeUnit(c)[1..] + x) == Found([c], x)
  {
    var e := J.EscapeUnit(c)[1..];
    assert (e + x)[0] == e[0];
    if e[0] == 0x75 {
      assert (e + x)[1..] == J.Hex4(c) + x;
      Hex4Reads(c, x);
    } else {
      assert (e + x)[1..] == x;
    }
  }

  lemma BackslashReads(x: Text)
    ensures ReadEscape(J.EscapeUnit(0x5C)[1..] + x) == Found([0x5C], x)
  {
    assert J.EscapeUnit(0x5C)[1..] + x == [0x5C] + x && ([0x5C] + x)[1..] == x;
  }

  lemma UnitReads(c: CodeUnit, x: Text)
    ensures ReadChar(J.EscapeUnit(c) + x) == Found([c], x)
  {
    var e := J.EscapeUnit(c);
    assert (e + x)[0] == e[0] && (e + x)[1..] == e[1..] + x;
    if c == 0x5C {
      BackslashReads(x);
    } else if e[0] == 0x5C {
      EscapeReads(c, x);
    } else {
      assert e == [c] && (e + x)[..1] == [c] && (e + x)[1..] == x;
    }
  }

  lemma HeadReads(s: Text, x: Text)
    requires s != []
    ensures ReadChar(J.EscapeHead(s) + x) == Found(s[..J.Width(s)], x)
  {
    if J.StartsPair(s) {
      assert (s[..2] + x)[0] == s[0] && (s[..2] + x)[1] == s[1] && (s[..2] + x)[..2] == s[..2] && (s[..2] + x)[2..] == x;
    } else {
      UnitReads(s[0], x);
      assert s[..1] == [s[0]];
    }
  }

  lemma CharsStep(t: Text, c: Text, rest: Text, more: Text, x: Text)
    requires ReadChar(t) == Found(c, rest) && ReadChars(rest) == Found(more, x)
    requires |c| == 1 && IsHighUnit(c[0]) && more != [] ==> !IsLowUnit(more[0])
    ensures ReadChars(t) == Found(c + more, x)
  {
  }

  lemma LoneStays(s: Text)
    requires s != [] && J.Width(s) == 1 && IsHighUnit(s[0]) && s[1..] != []
    ensures !IsLowUnit(s[1..][0])
  {
  }

  lemma {:induction false} CharsRead(s: Text, x: Text)
    ensures ReadChars(J.Escape(s) + ([0x22] + x)) == Found(s, x)
    decreases |s|
  {
    J.EscapeStep(s, [0x22] + x);
    if s == [] {
      assert ([0x22] + x)[1..] == x;
    } else {
      var w := J.Width(s);
      var rest := J.Escape(s[w..]) + ([0x22] + x);
      CharsRead(s[w..], x);
      HeadReads(s, rest);
      if w == 1 && IsHighUnit(s[0]) && s[1..] != [] { LoneStays(s); }
      CharsStep(J.EscapeHead(s) + rest, s[..w], rest, s[w..], x);
      assert s == s[..w] + s[w..];
    }
  }

  lemma StringReads(s: Text, x: Text)
    ensures ReadString(J.Quote(s) + x) == Found(s, x)
  {
    Assoc([0x22] + J.Escape(s), [0x22], x);
    Assoc([0x22], J.Escape(s), [0x22] + x);
    var t := J.Escape(s) + ([0x22] + x);
    assert J.Quote(s) + x == [0x22] + t && ([0x22] + t)[0] == 0x22 && ([0x22] + t)[1..] == t;
    CharsRead(s, x);
  }

  predicate NoDigitAhead(t: Text) {
    t == [] || !IsDecimalDigit(t[0])
  }

  lemma {:induction false} CountedAll(t: Text, x: Text)
    requires (forall i | 0 <= i < |t| :: IsDecimalDigit(t[i])) && NoDigitAhead(x)
    ensures DigitCount(t + x) == |t|
  {
    if t == [] {
      assert t + x == x;
    } else {
      assert (t + x)[1..] == t[1..] + x;
      CountedAll(t[1..], x);
    }
  }

  lemma {:induction false} ValuesAgree(t: Text)
    requires AllDigits(t)
    ensures DigitsValue(t) == Digits.Value(t)
  {
    if t != [] {
      ValuesAgree(t[..|t| - 1]);
    }
  }

  lemma NaturalReads(n: nat, x: Text)
    requires NoDigitAhead(x)
    ensures ReadNatural(Digits.Print(n) + x) == Found(n, x)
  {
    var t := Digits.Print(n);
    CountedAll(t, x);
    assert (t + x)[..|t|] == t && (t + x)[|t|..] == x && (t + x)[0] == t[0];
    ValuesAgree(t);
    Digits.ValuePrint(n);
  }

  lemma NegativeReads(n: nat, t: Text, x: Text)
    requires n > 0 && ReadNatural(t) == Found(n, x)
    ensures ReadInteger([0x2D] + t) == Found(0 - n, x)
  {
    assert ([0x2D] + t)[1..] == t;
  }

  lemma NaturalHead(n: nat, x: Text)
    ensures var t := Digits.Print(n) + x; t != [] && IsDecimalDigit(t[0])
  {
    assert (Digits.Print(n) + x)[0] == Digits.Print(n)[0];
  }

  lemma IntegerReads(n: int, x: Text)
    requires NoDigitAhead(x)
    ensures ReadInteger(Digits.PrintInt(n) + x) == Found(n, x)
    ensures var t := Digits.PrintInt(n) + x; t != [] && (t[0] == 0x2D || IsDecimalDigit(t[0]))
  {
    if n < 0 {
      Assoc([0x2D], Digits.Print(0 - n), x);
      NaturalReads(0 - n, x);
      NegativeReads(0 - n, Digits.Print(0 - n) + x, x);
    } else {
      NaturalHead(n, x);
      NaturalReads(n, x);
    }
  }

  lemma WordReads(word: Text, x: Text, j: J.Json)
    requires word != []
    ensures ReadWord(word + x, word, j) == Found(j, x) && (word + x)[0] == word[0]
  {
    assert (word + x)[..|word|] == word && (word + x)[|word|..] == x;
  }

  lemma Words()
    ensures J.NULL == [0x6E, 0x75, 0x6C, 0x6C] && J.TRUE == [0x74, 0x72, 0x75, 0x65]
    ensures J.FALSE == [0x66, 0x61, 0x6C, 0x73, 0x65]
  {
  }

  lemma Opened(open: CodeUnit, inner: Text, close: CodeUnit, x: Text)
    ensures var t := [open] + inner + [close] + x; t != [] && t[0] == open && t[1..] == inner + ([close] + x)
  {
  }

  /** Whatever is printed reads back as the value it was printed for. */
  lemma {:induction false} ValueReads(j: J.Json, x: Text)
    requires NoDigitAhead(x)
    ensures ReadValue(J.Print(j) + x) == Found(j, x)
    decreases j, 0
  {
    match j
    case JNull => Words(); WordReads(J.NULL, x, j);
    case JBool(b) => Words(); WordReads(if b then J.TRUE else J.FALSE, x, j);
    case JNumber(n) => IntegerReads(n, x);
    case JString(s) =>
      StringReads(s, x);
      assert (J.Quote(s) + x)[0] == 0x22;
    case JArray(items) =>
      Opened(0x5B, J.Join(J.PrintAll(items)), 0x5D, x);
      ItemsRead(items, x);
    case JObject(fields) =>
      Opened(0x7B, J.Join(J.PrintFields(fields)), 0x7D, x);
      FieldsRead(fields, x);
  }

  lemma ListRest(parts: seq<Text>, close: CodeUnit, x: Text)
    requires close == 0x5D || close == 0x7D
    ensures var t := J.After(parts, [close] + x);
            NoDigitAhead(t) && if parts == [] then Follows(t, close) && t[1..] == x && !Follows(t, 0x2C)
                               else Follows(t, 0x2C) && !Follows(t, close) && t[1..] == J.Join(parts) + ([close] + x)
  {
  }

  lemma ItemsStep(t: Text, v: J.Json, rest: Text, x: Text)
    requires ReadValue(t) == Found(v, rest) && Follows(rest, 0x5D) && rest[1..] == x
    ensures ReadItems(t) == Found([v], x)
  {
  }

  lemma ItemsMore(t: Text, v: J.Json, rest: Text, more: seq<J.Json>, x: Text)
    requires ReadValue(t) == Found(v, rest) && Follows(rest, 0x2C) && ReadItems(rest[1..]) == Found(more, x)
    ensures ReadItems(t) == Found([v] + more, x)
  {
  }

  lemma {:induction false} ItemsRead(items: seq<J.Json>, x: Text)
    ensures var t := J.Join(J.PrintAll(items)) + ([0x5D] + x);
            if items == [] then Follows(t, 0x5D) && t[1..] == x
            else !Follows(t, 0x5D) && ReadItems(t) == Found(items, x)
    decreases items, 1
  {
    J.ItemsHead(items, [0x5D] + x);
    if items != [] {
      var parts := J.PrintAll(items[1..]);
      var rest := J.After(parts, [0x5D] + x);
      ListRest(parts, 0x5D, x);
      ValueReads(items[0], rest);
      ItemsRead(items[1..], x);
      assert items == [items[0]] + items[1..];
      if items[1..] == [] {
        assert items == [items[0]];
        ItemsStep(J.Print(items[0]) + rest, items[0], rest, x);
      } else {
        ItemsMore(J.Print(items[0]) + rest, items[0], rest, items[1..], x);
      }
    }
  }

  lemma FieldReads(f: J.Entry<J.Json>, x: Text)
    requires ReadValue(J.Print(f.value) + x) == Found(f.value, x)
    ensures ReadField(J.Quote(f.key) + ([0x3A] + (J.Print(f.value) + x))) == Found(f, x)
  {
    var v := J.Print(f.value) + x;
    StringReads(f.key, [0x3A] + v);
    assert ([0x3A] + v)[1..] == v;
  }

  lemma FieldsStep(t: Text, f: J.Entry<J.Json>, rest: Text, x: Text)
    requires ReadField(t) == Found(f, rest) && Follows(rest, 0x7D) && rest[1..] == x
    ensures ReadFields(t) == Found([f], x)
  {
  }

  lemma FieldsMore(t: Text, f: J.Entry<J.Json>, rest: Text, more: seq<J.Entry<J.Json>>, x: Text)
    requires ReadField(t) == Found(f, rest) && Follows(rest, 0x2C) && ReadFields(rest[1..]) == Found(more, x)
    ensures ReadFields(t) == Found([f] + more, x)
  {
  }

  lemma {:induction false} FieldsRead(fields: seq<J.Entry<J.Json>>, x: Text)
    ensures var t := J.Join(J.PrintFields(fields)) + ([0x7D] + x);
            if fields == [] then Follows(t, 0x7D) && t[1..] == x
            else !Follows(t, 0x7D) && ReadFields(t) == Found(fields, x)
    decreases fields, 1
  {
    J.FieldsHead(fields, [0x7D] + x);
    if fields != [] {
      var parts := J.PrintFields(fields[1..]);
      var rest := J.After(parts, [0x7D] + x);
      var t := J.Quote(fields[0].key) + ([0x3A] + (J.Print(fields[0].value) + rest));
      ListRest(parts, 0x7D, x);
      ValueReads(fields[0].value, rest);
      FieldReads(fields[0], rest);
      FieldsRead(fields[1..], x);
      assert fields == [fields[0]] + fields[1..];
      if fields[1..] == [] {
        assert fields == [fields[0]];
        FieldsStep(t, fields[0], rest, x);
      } else {
        FieldsMore(t, fields[0], rest, fields[1..], x);
      }
    }
  }

  // ----- And nothing else reads as that value -----

  lemma HexSpelled(c: CodeUnit)
    requires HexValue(c) >= 0
    ensures HexValue(c) < 16 && J.HexDigit(HexValue(c)) == c
  {
  }

  lemma LastNibble(x: int, d: int)
    requires x >= 0 && 0 <= d < 16
    ensures (x * 16 + d) / 16 == x && (x * 16 + d) % 16 == d
  {
  }

  lemma DividedTwice(u: int)
    requires u >= 0
    ensures u / 256 == u / 16 / 16 && u / 4096 == u / 256 / 16
  {
  }

  lemma Nibbled(a: int, b: int, c: int, d: int, u: int)
    requires 0 <= a < 16 && 0 <= b < 16 && 0 <= c < 16 && 0 <= d < 16 && u == a * 4096 + b * 256 + c * 16 + d
    ensures u / 4096 == a && u / 256 % 16 == b && u / 16 % 16 == c && u % 16 == d
  {
    var v := a * 16 + b;
    var w := v * 16 + c;
    assert u == w * 16 + d;
    DividedTwice(u);
    LastNibble(w, d);
    LastNibble(v, c);
    LastNibble(a, b);
  }

  lemma HexOnly(t: Text)
    requires ReadHex(t).Found?
    ensures t == J.Hex4(ReadHex(t).value) + ReadHex(t).rest
  {
    HexSpelled(t[0]);
    HexSpelled(t[1]);
    HexSpelled(t[2]);
    HexSpelled(t[3]);
    Nibbled(HexValue(t[0]), HexValue(t[1]), HexValue(t[2]), HexValue(t[3]), ReadHex(t).value);
    assert t == [t[0], t[1], t[2], t[3]] + t[4..];
  }

  lemma EscapeOnly(t: Text)
    requires ReadEscape(t).Found?
    ensures [0x5C] + t == J.EscapeUnit(ReadEscape(t).value[0]) + ReadEscape(t).rest
  {
    if t[0] == 0x75 {
      HexOnly(t[1..]);
    }
  }

  lemma CharOnly(t: Text)
    requires ReadChar(t).Found?
    ensures var c := ReadChar(t).value;
            && (|c| == 2 ==> J.StartsPair(c) && t == c + ReadChar(t).rest)
            && (|c| == 1 ==> t == J.EscapeUnit(c[0]) + ReadChar(t).rest)
  {
    if t[0] == 0x5C {
      EscapeOnly(t[1..]);
      assert t == [0x5C] + t[1..];
    }
  }

  lemma CharHead(c: Text, more: Text)
    requires 1 <= |c| <= 2 && (|c| == 2 ==> J.StartsPair(c))
    requires |c| == 1 && IsHighUnit(c[0]) && more != [] ==> !IsLowUnit(more[0])
    ensures J.Width(c + more) == |c| && (c + more)[|c|..] == more
    ensures J.EscapeHead(c + more) == if |c| == 2 then c else J.EscapeUnit(c[0])
  {
    assert |c| == 2 ==> (c + more)[..2] == c && (c + more)[1] == c[1];
    assert |c| == 1 && more != [] ==> (c + more)[1] == more[0];
  }

  lemma {:induction false} CharsOnly(t: Text)
    requires ReadChars(t).Found?
    ensures t == J.Escape(ReadChars(t).value) + ([0x22] + ReadChars(t).rest)
    decreases |t|
  {
    if t[0] != 0x22 {
      var c := ReadChar(t);
      var more := ReadChars(c.rest);
      CharsOnly(c.rest);
      CharOnly(t);
      CharHead(c.value, more.value);
      Assoc(J.EscapeHead(c.value + more.value), J.Escape(more.value), [0x22] + more.rest);
    }
  }

  lemma StringOnly(t: Text)
    requires ReadString(t).Found?
    ensures t == J.Quote(ReadString(t).value) + ReadString(t).rest
  {
    var s, x := ReadString(t).value, ReadString(t).rest;
    CharsOnly(t[1..]);
    Assoc([0x22] + J.Escape(s), [0x22], x);
    Assoc([0x22], J.Escape(s), [0x22] + x);
    assert t == [0x22] + t[1..];
  }

  lemma NaturalOnly(t: Text)
    requires ReadNatural(t).Found?
    ensures t == Digits.Print(ReadNatural(t).value) + ReadNatural(t).rest
  {
    var n := DigitCount(t);
    ValuesAgree(t[..n]);
    Digits.PrintValue(t[..n]);
    assert t == t[..n] + t[n..];
  }

  lemma IntegerOnly(t: Text)
    requires ReadInteger(t).Found?
    ensures t == Digits.PrintInt(ReadInteger(t).value) + ReadInteger(t).rest
  {
    if t[0] == 0x2D {
      NaturalOnly(t[1..]);
      var n := ReadNatural(t[1..]);
      Assoc([0x2D], Digits.Print(n.value), n.rest);
      assert t == [0x2D] + t[1..];
    } else {
      NaturalOnly(t);
    }
  }

  lemma WordOnly(t: Text, word: Text, j: J.Json)
    requires word != [] && ReadWord(t, word, j).Found?
    ensures ReadWord(t, word, j).value == j && t == word + ReadWord(t, word, j).rest
  {
  }

  /** The strict reader accepts a value in one spelling only: the printed one. */
  lemma {:induction false} ValueOnly(t: Text)
    requires ReadValue(t).Found?
    ensures t == J.Print(ReadValue(t).value) + ReadValue(t).rest
    decreases |t|, 1
  {
    Words();
    if t[0] == 0x6E {
      WordOnly(t, J.NULL, J.JNull);
    } else if t[0] == 0x74 {
      WordOnly(t, J.TRUE, J.JBool(true));
    } else if t[0] == 0x66 {
      WordOnly(t, J.FALSE, J.JBool(false));
    } else if t[0] == 0x22 {
      StringOnly(t);
    } else if t[0] == 0x5B {
      ArrayOnly(t);
    } else if t[0] == 0x7B {
      ObjectOnly(t);
    } else {
      IntegerOnly(t);
    }
  }

  lemma Enclosed(t: Text, open: CodeUnit, inner: Text, close: CodeUnit, x: Text)
    requires t != [] && t[0] == open && t[1..] == inner + ([close] + x)
    ensures t == [open] + inner + [close] + x
  {
    assert t == [open] + t[1..];
  }

  lemma {:induction false} ArrayOnly(t: Text)
    requires ReadValue(t).Found? && t[0] == 0x5B
    ensures t == J.Print(ReadValue(t).value) + ReadValue(t).rest
    decreases |t|, 0
  {
    if Follows(t[1..], 0x5D) {
      Enclosed(t, 0x5B, [], 0x5D, t[2..]);
    } else {
      ItemsOnly(t[1..]);
      var items := ReadItems(t[1..]);
      Enclosed(t, 0x5B, J.Join(J.PrintAll(items.value)), 0x5D, items.rest);
    }
  }

  lemma {:induction false} ObjectOnly(t: Text)
    requires ReadValue(t).Found? && t[0] == 0x7B
    ensures t == J.Print(ReadValue(t).value) + ReadValue(t).rest
    decreases |t|, 0
  {
    if Follows(t[1..], 0x7D) {
      Enclosed(t, 0x7B, [], 0x7D, t[2..]);
    } else {
      FieldsOnly(t[1..]);
      var fields := ReadFields(t[1..]);
      Enclosed(t, 0x7B, J.Join(J.PrintFields(fields.value)), 0x7D, fields.rest);
    }
  }

  /** The text behind a list's first part, put together again. */
  lemma Rejoined(part: Text, parts: seq<Text>, close: CodeUnit, x: Text, rest: Text)
    requires if parts == [] then rest == [close] + x else rest == [0x2C] + (J.Join(parts) + ([close] + x))
    ensures J.Join([part] + parts) + ([close] + x) == part + rest
  {
    J.JoinHead([part] + parts, [close] + x);
    assert ([part] + parts)[1..] == parts;
  }

  lemma {:induction false} ItemsOnly(t: Text)
    requires ReadItems(t).Found?
    ensures ReadItems(t).value != [] && t == J.Join(J.PrintAll(ReadItems(t).value)) + ([0x5D] + ReadItems(t).rest)
    decreases |t|, 2
  {
    var v := ReadValue(t);
    ValueOnly(t);
    if Follows(v.rest, 0x5D) {
      assert v.rest == [0x5D] + v.rest[1..];
      Rejoined(J.Print(v.value), [], 0x5D, v.rest[1..], v.rest);
      assert J.PrintAll([v.value]) == [J.Print(v.value)] + [];
    } else {
      ItemsOnly(v.rest[1..]);
      var more := ReadItems(v.rest[1..]);
      assert v.rest == [0x2C] + v.rest[1..];
      Rejoined(J.Print(v.value), J.PrintAll(more.value), 0x5D, more.rest, v.rest);
      assert J.PrintAll([v.value] + more.value) == [J.Print(v.value)] + J.PrintAll(more.value);
    }
  }

  lemma {:induction false} FieldOnly(t: Text)
    requires ReadField(t).Found?
    ensures var f := ReadField(t).value; t == (J.Quote(f.key) + [0x3A] + J.Print(f.value)) + ReadField(t).rest
    decreases |t|, 2
  {
    var key := ReadString(t);
    StringOnly(t);
    ValueOnly(key.rest[1..]);
    var v := ReadValue(key.rest[1..]);
    assert key.rest == [0x3A] + key.rest[1..];
    J.FieldShape(J.Quote(key.value), J.Print(v.value), v.rest);
  }

  lemma FieldPrinted(f: J.Entry<J.Json>, more: seq<J.Entry<J.Json>>, part: Text)
    requires part == J.Quote(f.key) + [0x3A] + J.Print(f.value)
    ensures J.PrintFields([f] + more) == [part] + J.PrintFields(more)
  {
    assert ([f] + more)[1..] == more;
  }

  lemma FieldLast(f: J.Entry<J.Json>, part: Text, x: Text, rest: Text)
    requires part == J.Quote(f.key) + [0x3A] + J.Print(f.value) && rest == [0x7D] + x
    ensures J.Join(J.PrintFields([f])) + ([0x7D] + x) == part + rest
  {
    FieldPrinted(f, [], part);
    assert [f] + [] == [f];
    Rejoined(part, [], 0x7D, x, rest);
  }

  lemma FieldThen(f: J.Entry<J.Json>, more: seq<J.Entry<J.Json>>, part: Text, x: Text, rest: Text)
    requires part == J.Quote(f.key) + [0x3A] + J.Print(f.value) && more != []
    requires rest == [0x2C] + (J.Join(J.PrintFields(more)) + ([0x7D] + x))
    ensures J.Join(J.PrintFields([f] + more)) + ([0x7D] + x) == part + rest
  {
    FieldPrinted(f, more, part);
    Rejoined(part, J.PrintFields(more), 0x7D, x, rest);
  }

  lemma {:induction false} FieldsOnly(t: Text)
    requires ReadFields(t).Found?
    ensures ReadFields(t).value != [] && t == J.Join(J.PrintFields(ReadFields(t).value)) + ([0x7D] + ReadFields(t).rest)
    decreases |t|, 3
  {
    var f := ReadField(t);
    var part := J.Quote(f.value.key) + [0x3A] + J.Print(f.value.value);
    FieldOnly(t);
    if Follows(f.rest, 0x7D) {
      assert f.rest == [0x7D] + f.rest[1..];
      FieldLast(f.value, part, f.rest[1..], f.rest);
    } else {
      FieldsOnly(f.rest[1..]);
      var more := ReadFields(f.rest[1..]);
      assert f.rest == [0x2C] + f.rest[1..];
      FieldThen(f.value, more.value, part, more.rest, f.rest);
    }
  }
}
