/** JSON text: what `JSON.stringify` prints for a string, how the serializer
    joins nested parts, and the proof that the printed text has one reading. */
module Json {
  import opened Texts
  import Digits

  datatype Entry<V> = Entry(key: Text, value: V)

  datatype Json =
    | JNull
    | JBool(b: bool)
    | JNumber(n: int)
    | JString(s: Text)
    | JArray(items: seq<Json>)
    | JObject(fields: seq<Entry<Json>>)

  const NULL: Text := Ascii("null")
  const TRUE: Text := Ascii("true")
  const FALSE: Text := Ascii("false")

  // ----- Strings (section 7 of RFC 8259, with lone surrogates escaped) -----

  predicate IsHigh(c: CodeUnit) { 0xD800 <= c < 0xDC00 }

  predicate IsLow(c: CodeUnit) { 0xDC00 <= c < 0xE000 }

  predicate StartsPair(s: Text) {
    |s| >= 2 && IsHigh(s[0]) && IsLow(s[1])
  }

  function HexDigit(d: int): CodeUnit
    requires 0 <= d < 16
  {
    if d < 10 then ZERO + d else 0x61 + d - 10
  }

  function Hex4(c: CodeUnit): (t: Text)
    ensures |t| == 4
  {
    [HexDigit(c / 4096), HexDigit(c / 256 % 16), HexDigit(c / 16 % 16), HexDigit(c % 16)]
  }

  /** The code units printed for one unit that is not half of a surrogate pair. */
  function EscapeUnit(c: CodeUnit): (t: Text)
    ensures t != [] && t[0] != QUOTE && !IsHigh(t[0])
  {
    if c == QUOTE || c == BACKSLASH then [BACKSLASH, c]
    else if c == 0x08 then [BACKSLASH, 0x62]
    else if c == 0x09 then [BACKSLASH, 0x74]
    else if c == 0x0A then [BACKSLASH, 0x6E]
    else if c == 0x0C then [BACKSLASH, 0x66]
    else if c == 0x0D then [BACKSLASH, 0x72]
    else if c < 0x20 || IsHigh(c) || IsLow(c) then [BACKSLASH, 0x75] + Hex4(c)
    else [c]
  }

  /** How many units of `s` are printed together: a surrogate pair, or one unit. */
  function Width(s: Text): (w: nat)
    requires s != []
    ensures 1 <= w <= |s|
  {
    if StartsPair(s) then 2 else 1
  }

  function EscapeHead(s: Text): (t: Text)
    requires s != []
    ensures t != [] && t[0] != QUOTE && (IsHigh(t[0]) <==> StartsPair(s))
  {
    if StartsPair(s) then s[..2] else EscapeUnit(s[0])
  }

  function Escape(s: Text): Text {
    if s == [] then [] else EscapeHead(s) + Escape(s[Width(s)..])
  }

  function Quote(s: Text): Text {
    [QUOTE] + Escape(s) + [QUOTE]
  }

  // ----- Values -----

  /** `parts.join(',')` */
  function Join(parts: seq<Text>): Text {
    if parts == [] then []
    else if |parts| == 1 then parts[0]
    else parts[0] + [COMMA] + Join(parts[1..])
  }

  function PrintAll(items: seq<Json>): (parts: seq<Text>)
    ensures |parts| == |items|
  {
    if items == [] then [] else [Print(items[0])] + PrintAll(items[1..])
  }

  function PrintFields(fields: seq<Entry<Json>>): (parts: seq<Text>)
    ensures |parts| == |fields|
  {
    if fields == [] then []
    else [Quote(fields[0].key) + [COLON] + Print(fields[0].value)] + PrintFields(fields[1..])
  }

  function Print(j: Json): Text {
    match j
    case JNull => NULL
    case JBool(b) => if b then TRUE else FALSE
    case JNumber(n) => Digits.PrintInt(n)
    case JString(s) => Quote(s)
    case JArray(items) => [LEFT_BRACKET] + Join(PrintAll(items)) + [RIGHT_BRACKET]
    case JObject(fields) => [LEFT_BRACE] + Join(PrintFields(fields)) + [RIGHT_BRACE]
  }

  // ----- One reading -----

  /** What may follow a printed value: anything that cannot extend a number. */
  predicate Ends(t: Text) {
    t == [] || !IsDigit(t[0])
  }

  lemma HexDigitUnique(x: int, y: int)
    requires 0 <= x < 16 && 0 <= y < 16 && HexDigit(x) == HexDigit(y)
    ensures x == y
  {
  }

  lemma Nibbles(c: CodeUnit)
    ensures c == ((c / 4096 * 16 + c / 256 % 16) * 16 + c / 16 % 16) * 16 + c % 16
  {
    assert c / 256 / 16 == c / 4096 && c / 16 / 16 == c / 256;
  }

  lemma Hex4Unique(c: CodeUnit, d: CodeUnit)
    requires Hex4(c) == Hex4(d)
    ensures c == d
  {
    var a, b := Hex4(c), Hex4(d);
    assert a[0] == b[0] && a[1] == b[1] && a[2] == b[2] && a[3] == b[3];
    HexDigitUnique(c / 4096, d / 4096);
    HexDigitUnique(c / 256 % 16, d / 256 % 16);
    HexDigitUnique(c / 16 % 16, d / 16 % 16);
    HexDigitUnique(c % 16, d % 16);
    Nibbles(c);
    Nibbles(d);
  }

  lemma EscapeUnitUnique(c: CodeUnit, d: CodeUnit, s: Text, t: Text)
    requires EscapeUnit(c) + s == EscapeUnit(d) + t
    ensures c == d && s == t
  {
    var a, b, u := EscapeUnit(c), EscapeUnit(d), EscapeUnit(c) + s;
    assert u[0] == a[0] == b[0];
    assert |a| > 1 && |b| > 1 ==> u[1] == a[1] == b[1];
    assert |a| == |b|;
    Cancel(a, s, b, t);
    if |a| == 6 {
      assert Hex4(c) == a[2..] == b[2..] == Hex4(d);
      Hex4Unique(c, d);
    }
  }

  /** What is printed first tells what it was printed for; it is never the closing quote. */
  lemma EscapeHeadUnique(a: Text, b: Text, s: Text, t: Text)
    requires a != [] && b != []
    requires EscapeHead(a) + s == EscapeHead(b) + t
    ensures Width(a) == Width(b) && a[..Width(a)] == b[..Width(b)] && s == t
  {
    assert (EscapeHead(a) + s)[0] == EscapeHead(a)[0] && (EscapeHead(b) + t)[0] == EscapeHead(b)[0];
    if StartsPair(a) {
      Cancel(a[..2], s, b[..2], t);
    } else {
      EscapeUnitUnique(a[0], b[0], s, t);
    }
  }

  lemma EscapeStep(a: Text, x: Text)
    requires x != [] && x[0] == QUOTE
    ensures var u := Escape(a) + x; u != [] && (a == [] <==> u[0] == QUOTE)
    ensures a == [] ==> Escape(a) + x == x
    ensures a != [] ==> Escape(a) + x == EscapeHead(a) + (Escape(a[Width(a)..]) + x)
  {
    if a == [] {
      assert Escape(a) + x == x;
    } else {
      var head, rest := EscapeHead(a), Escape(a[Width(a)..]);
      Assoc(head, rest, x);
      assert (head + (rest + x))[0] == head[0];
    }
  }

  lemma {:induction false} EscapeUnique(a: Text, b: Text, s: Text, t: Text)
    requires Escape(a) + ([QUOTE] + s) == Escape(b) + ([QUOTE] + t)
    ensures a == b && s == t
    decreases |a|
  {
    var x, y := [QUOTE] + s, [QUOTE] + t;
    EscapeStep(a, x);
    EscapeStep(b, y);
    if a == [] {
      Cancel([QUOTE], s, [QUOTE], t);
    } else {
      var w := Width(a);
      EscapeHeadUnique(a, b, Escape(a[w..]) + x, Escape(b[Width(b)..]) + y);
      EscapeUnique(a[w..], b[w..], s, t);
      assert a == a[..w] + a[w..] && b == b[..w] + b[w..];
    }
  }

  lemma QuoteUnique(a: Text, b: Text, s: Text, t: Text)
    requires Quote(a) + s == Quote(b) + t
    ensures a == b && s == t
  {
    Unwrap(QUOTE, Escape(a), s, Escape(b), t, QUOTE);
    EscapeUnique(a, b, s, t);
  }

  /** The first unit tells which kind of value is printed. */
  function FirstUnit(j: Json): CodeUnit {
    match j
    case JNull => 0x6E
    case JBool(b) => if b then 0x74 else 0x66
    case JNumber(n) => if n < 0 then MINUS else Digits.Print(n)[0]
    case JString(_) => QUOTE
    case JArray(_) => LEFT_BRACKET
    case JObject(_) => LEFT_BRACE
  }

  predicate SameKind(a: Json, b: Json) {
    match a
    case JNull => b.JNull?
    case JBool(x) => b == a
    case JNumber(_) => b.JNumber?
    case JString(_) => b.JString?
    case JArray(_) => b.JArray?
    case JObject(_) => b.JObject?
  }

  lemma PrintHead(j: Json)
    ensures Print(j) != [] && Print(j)[0] == FirstUnit(j)
    ensures FirstUnit(j) != COMMA && FirstUnit(j) != RIGHT_BRACKET && FirstUnit(j) != RIGHT_BRACE
  {
    if j.JNumber? {
      Digits.PrintIntHead(j.n);
    }
  }

  lemma SameHead(a: Json, b: Json, s: Text, t: Text)
    requires Print(a) + s == Print(b) + t
    ensures SameKind(a, b)
  {
    PrintHead(a);
    PrintHead(b);
    assert (Print(a) + s)[0] == Print(a)[0] && (Print(b) + t)[0] == Print(b)[0];
    assert FirstUnit(a) == FirstUnit(b);
  }

  /** The text after a list's first part: a comma and the rest, or the closing bracket. */
  function After(rest: seq<Text>, close: Text): Text {
    if rest == [] then close else [COMMA] + (Join(rest) + close)
  }

  lemma JoinHead(parts: seq<Text>, close: Text)
    requires parts != []
    ensures Join(parts) + close == parts[0] + After(parts[1..], close)
  {
  }

  lemma AfterUnique(p: seq<Text>, q: seq<Text>, x: Text, y: Text)
    requires After(p, x) == After(q, y)
    requires x != [] && y != [] && x[0] != COMMA && y[0] != COMMA
    ensures Join(p) + x == Join(q) + y
  {
    assert p == [] <==> After(p, x)[0] != COMMA;
    assert q == [] <==> After(q, y)[0] != COMMA;
    if p == [] {
      assert Join(p) + x == x && Join(q) + y == y;
    } else {
      Cancel([COMMA], Join(p) + x, [COMMA], Join(q) + y);
    }
  }

  /** Texts that print different values differ, whatever follows each of them. */
  lemma {:induction false} PrintUnique(a: Json, b: Json, s: Text, t: Text)
    requires Print(a) + s == Print(b) + t
    requires Ends(s) && Ends(t)
    ensures a == b && s == t
    decreases a, 0
  {
    SameHead(a, b, s, t);
    match a
    case JNull => Cancel(Print(a), s, Print(b), t);
    case JBool(_) => Cancel(Print(a), s, Print(b), t);
    case JNumber(m) => Digits.PrintIntUnique(m, b.n, s, t);
    case JString(x) => QuoteUnique(x, b.s, s, t);
    case JArray(xs) =>
      Unwrap(LEFT_BRACKET, Join(PrintAll(xs)), s, Join(PrintAll(b.items)), t, RIGHT_BRACKET);
      ItemsUnique(xs, b.items, s, t);
    case JObject(xs) =>
      Unwrap(LEFT_BRACE, Join(PrintFields(xs)), s, Join(PrintFields(b.fields)), t, RIGHT_BRACE);
      FieldsUnique(xs, b.fields, s, t);
  }

  lemma Unwrap(open: CodeUnit, x: Text, s: Text, y: Text, t: Text, close: CodeUnit)
    requires [open] + x + [close] + s == [open] + y + [close] + t
    ensures x + ([close] + s) == y + ([close] + t)
  {
    Assoc([open] + x, [close], s);
    Assoc([open], x, [close] + s);
    Assoc([open] + y, [close], t);
    Assoc([open], y, [close] + t);
    Cancel([open], x + ([close] + s), [open], y + ([close] + t));
  }

  lemma {:induction false} ItemsUnique(xs: seq<Json>, ys: seq<Json>, s: Text, t: Text)
    requires Join(PrintAll(xs)) + ([RIGHT_BRACKET] + s) == Join(PrintAll(ys)) + ([RIGHT_BRACKET] + t)
    ensures xs == ys && s == t
    decreases xs, 1
  {
    var x, y := [RIGHT_BRACKET] + s, [RIGHT_BRACKET] + t;
    ItemsHead(xs, x);
    ItemsHead(ys, y);
    assert xs == [] <==> ys == [];
    if xs == [] {
      Cancel([RIGHT_BRACKET], s, [RIGHT_BRACKET], t);
    } else {
      PrintUnique(xs[0], ys[0], After(PrintAll(xs[1..]), x), After(PrintAll(ys[1..]), y));
      AfterUnique(PrintAll(xs[1..]), PrintAll(ys[1..]), x, y);
      ItemsUnique(xs[1..], ys[1..], s, t);
      assert xs == [xs[0]] + xs[1..] && ys == [ys[0]] + ys[1..];
    }
  }

  lemma ItemsHead(xs: seq<Json>, close: Text)
    requires close != [] && close[0] == RIGHT_BRACKET
    ensures var u := Join(PrintAll(xs)) + close; u != [] && (xs == [] <==> u[0] == RIGHT_BRACKET)
    ensures xs == [] ==> Join(PrintAll(xs)) + close == close
    ensures xs != [] ==> Join(PrintAll(xs)) + close == Print(xs[0]) + After(PrintAll(xs[1..]), close)
  {
    if xs != [] {
      PrintHead(xs[0]);
      JoinHead(PrintAll(xs), close);
      assert PrintAll(xs)[1..] == PrintAll(xs[1..]);
    }
  }

  lemma {:induction false} FieldsUnique(xs: seq<Entry<Json>>, ys: seq<Entry<Json>>, s: Text, t: Text)
    requires Join(PrintFields(xs)) + ([RIGHT_BRACE] + s) == Join(PrintFields(ys)) + ([RIGHT_BRACE] + t)
    ensures xs == ys && s == t
    decreases xs, 1
  {
    var x, y := [RIGHT_BRACE] + s, [RIGHT_BRACE] + t;
    FieldsHead(xs, x);
    FieldsHead(ys, y);
    assert xs == [] <==> ys == [];
    if xs == [] {
      Cancel([RIGHT_BRACE], s, [RIGHT_BRACE], t);
    } else {
      var restX, restY := After(PrintFields(xs[1..]), x), After(PrintFields(ys[1..]), y);
      var vx, vy := Print(xs[0].value) + restX, Print(ys[0].value) + restY;
      QuoteUnique(xs[0].key, ys[0].key, [COLON] + vx, [COLON] + vy);
      Cancel([COLON], vx, [COLON], vy);
      PrintUnique(xs[0].value, ys[0].value, restX, restY);
      AfterUnique(PrintFields(xs[1..]), PrintFields(ys[1..]), x, y);
      FieldsUnique(xs[1..], ys[1..], s, t);
      assert xs == [xs[0]] + xs[1..] && ys == [ys[0]] + ys[1..];
    }
  }

  lemma FieldsHead(xs: seq<Entry<Json>>, close: Text)
    requires close != [] && close[0] == RIGHT_BRACE
    ensures var u := Join(PrintFields(xs)) + close; u != [] && (xs == [] <==> u[0] == RIGHT_BRACE)
    ensures xs == [] ==> Join(PrintFields(xs)) + close == close
    ensures xs != [] ==>
      Join(PrintFields(xs)) + close
      == Quote(xs[0].key) + ([COLON] + (Print(xs[0].value) + After(PrintFields(xs[1..]), close)))
  {
    if xs != [] {
      var parts := PrintFields(xs);
      JoinHead(parts, close);
      assert parts[1..] == PrintFields(xs[1..]);
      FieldShape(Quote(xs[0].key), Print(xs[0].value), After(PrintFields(xs[1..]), close));
    }
  }

  lemma FieldShape(key: Text, value: Text, rest: Text)
    ensures (key + [COLON] + value) + rest == key + ([COLON] + (value + rest))
  {
    Assoc(key + [COLON], value, rest);
    Assoc(key, [COLON], value + rest);
  }
}
