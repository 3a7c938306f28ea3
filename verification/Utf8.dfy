/** Encoding code units as UTF-8 bytes, the way `update(payload, 'utf8')` does.
    A lone surrogate is replaced by U+FFFD, so the encoding loses information in
    general; it loses none on well-formed text. */
module Utf8 {
  import opened Texts
  import Digits
  import J = Json

  type Byte = b: int | 0 <= b < 0x100 witness 0
  type Bytes = seq<Byte>

  const REPLACEMENT: Bytes := [0xEF, 0xBF, 0xBD]

  predicate IsSurrogate(c: CodeUnit) { 0xD800 <= c < 0xE000 }

  /** Every surrogate is part of a pair. */
  predicate WellFormed(t: Text) {
    t == []
    || (J.StartsPair(t) && WellFormed(t[2..]))
    || (!IsSurrogate(t[0]) && WellFormed(t[1..]))
  }

  /** Three bytes at most: the units outside surrogate pairs. */
  function EncodeUnit(c: CodeUnit): (b: Bytes)
    ensures b != []
  {
    if c < 0x80 then [c]
    else if c < 0x800 then [0xC0 + c / 64, 0x80 + c % 64]
    else if IsSurrogate(c) then REPLACEMENT
    else [0xE0 + c / 4096, 0x80 + c / 64 % 64, 0x80 + c % 64]
  }

  /** Four bytes for the code point of a surrogate pair. */
  function EncodePair(high: CodeUnit, low: CodeUnit): (b: Bytes)
    requires J.IsHigh(high) && J.IsLow(low)
    ensures |b| == 4 && b[0] >= 0xF0
  {
    var p := 0x10000 + (high - 0xD800) * 1024 + (low - 0xDC00);
    [0xF0 + p / 262144, 0x80 + p / 4096 % 64, 0x80 + p / 64 % 64, 0x80 + p % 64]
  }

  function EncodeHead(t: Text): (b: Bytes)
    requires t != []
    ensures b != []
  {
    if J.StartsPair(t) then EncodePair(t[0], t[1]) else EncodeUnit(t[0])
  }

  function Encode(t: Text): Bytes {
    if t == [] then [] else EncodeHead(t) + Encode(t[J.Width(t)..])
  }

  // ----- Lossless on well-formed text -----

  lemma EncodeUnitUnique(c: CodeUnit, d: CodeUnit, s: Bytes, t: Bytes)
    requires !IsSurrogate(c) && !IsSurrogate(d)
    requires EncodeUnit(c) + s == EncodeUnit(d) + t
    ensures c == d && s == t
  {
    var a, b := EncodeUnit(c), EncodeUnit(d);
    assert (a + s)[0] == a[0] && (b + t)[0] == b[0];
    assert |a| == |b|;
    Cancel(a, s, b, t);
    assert |a| == 2 ==> a[1] == b[1];
    assert |a| == 3 ==> a[1] == b[1] && a[2] == b[2];
    assert c == c / 4096 * 4096 + c / 64 % 64 * 64 + c % 64 by { Sextets(c); }
    assert d == d / 4096 * 4096 + d / 64 % 64 * 64 + d % 64 by { Sextets(d); }
  }

  lemma Sextets(p: nat)
    ensures p == (p / 4096 * 64 + p / 64 % 64) * 64 + p % 64
    ensures p / 4096 == p / 262144 * 64 + p / 4096 % 64
  {
    assert p / 64 / 64 == p / 4096 && p / 4096 / 64 == p / 262144;
  }

  lemma EncodePairUnique(h: CodeUnit, l: CodeUnit, h': CodeUnit, l': CodeUnit)
    requires J.IsHigh(h) && J.IsLow(l) && J.IsHigh(h') && J.IsLow(l')
    requires EncodePair(h, l) == EncodePair(h', l')
    ensures h == h' && l == l'
  {
    var a, b := EncodePair(h, l), EncodePair(h', l');
    assert a[0] == b[0] && a[1] == b[1] && a[2] == b[2] && a[3] == b[3];
    Sextets(0x10000 + (h - 0xD800) * 1024 + (l - 0xDC00));
    Sextets(0x10000 + (h' - 0xD800) * 1024 + (l' - 0xDC00));
  }

  lemma EncodeHeadUnique(a: Text, b: Text, s: Bytes, t: Bytes)
    requires a != [] && b != [] && WellFormed(a) && WellFormed(b)
    requires EncodeHead(a) + s == EncodeHead(b) + t
    ensures J.Width(a) == J.Width(b) && a[..J.Width(a)] == b[..J.Width(b)] && s == t
  {
    assert (EncodeHead(a) + s)[0] == EncodeHead(a)[0] && (EncodeHead(b) + t)[0] == EncodeHead(b)[0];
    if J.StartsPair(a) {
      Cancel(EncodeHead(a), s, EncodeHead(b), t);
      EncodePairUnique(a[0], a[1], b[0], b[1]);
    } else {
      EncodeUnitUnique(a[0], b[0], s, t);
    }
  }

  /** Well-formed texts with the same bytes are the same text. */
  lemma {:induction false} EncodeUnique(a: Text, b: Text)
    requires WellFormed(a) && WellFormed(b) && Encode(a) == Encode(b)
    ensures a == b
    decreases |a|
  {
    assert a != [] ==> Encode(a) != [];
    assert b != [] ==> Encode(b) != [];
    if a != [] {
      var w := J.Width(a);
      EncodeHeadUnique(a, b, Encode(a[w..]), Encode(b[J.Width(b)..]));
      EncodeUnique(a[w..], b[w..]);
      assert a == a[..w] + a[w..] && b == b[..w] + b[w..];
    }
  }

  /** Outside well-formed text two different strings can encode alike. */
  lemma EncodeLosesLoneSurrogates()
    ensures Encode([0xD800]) == Encode([0xD801])
  {
    assert Encode([0xD800]) == REPLACEMENT + [] && Encode([0xD801]) == REPLACEMENT + [];
  }

  // ----- Printed JSON is well formed -----

  lemma {:induction false} WellFormedConcat(a: Text, b: Text)
    requires WellFormed(a) && WellFormed(b)
    ensures WellFormed(a + b)
    decreases |a|
  {
    if a == [] {
      assert a + b == b;
    } else {
      var w := J.Width(a);
      WellFormedConcat(a[w..], b);
      assert (a + b)[w..] == a[w..] + b;
    }
  }

  /** Text without surrogates. */
  lemma {:induction false} PlainWellFormed(t: Text)
    requires forall i | 0 <= i < |t| :: !IsSurrogate(t[i])
    ensures WellFormed(t)
  {
    if t != [] {
      PlainWellFormed(t[1..]);
    }
  }

  lemma EscapeUnitWellFormed(c: CodeUnit)
    ensures WellFormed(J.EscapeUnit(c))
  {
    PlainWellFormed(J.EscapeUnit(c));
  }

  lemma {:induction false} EscapeWellFormed(s: Text)
    ensures WellFormed(J.Escape(s))
    decreases |s|
  {
    if s != [] {
      var head := J.EscapeHead(s);
      if J.StartsPair(s) {
        assert head[2..] == [];
      } else {
        EscapeUnitWellFormed(s[0]);
      }
      EscapeWellFormed(s[J.Width(s)..]);
      WellFormedConcat(head, J.Escape(s[J.Width(s)..]));
    }
  }

  lemma UnitWellFormed(c: CodeUnit)
    requires !IsSurrogate(c)
    ensures WellFormed([c])
  {
    assert [c][1..] == [];
  }

  lemma WrapWellFormed(open: CodeUnit, t: Text, close: CodeUnit)
    requires !IsSurrogate(open) && !IsSurrogate(close) && WellFormed(t)
    ensures WellFormed([open] + t + [close])
  {
    UnitWellFormed(open);
    UnitWellFormed(close);
    WellFormedConcat([open], t);
    WellFormedConcat([open] + t, [close]);
  }

  lemma {:induction false} JoinWellFormed(parts: seq<Text>)
    requires forall i | 0 <= i < |parts| :: WellFormed(parts[i])
    ensures WellFormed(J.Join(parts))
  {
    if |parts| > 1 {
      UnitWellFormed(COMMA);
      WellFormedConcat(parts[0], [COMMA]);
      JoinWellFormed(parts[1..]);
      WellFormedConcat(parts[0] + [COMMA], J.Join(parts[1..]));
    }
  }

  lemma QuoteWellFormed(s: Text)
    ensures WellFormed(J.Quote(s))
  {
    EscapeWellFormed(s);
    WrapWellFormed(QUOTE, J.Escape(s), QUOTE);
  }

  lemma IntWellFormed(n: int)
    ensures WellFormed(Digits.PrintInt(n))
  {
    PlainWellFormed(Digits.PrintInt(n));
  }

  /** No printed value holds a lone surrogate, whatever strings it contains. */
  lemma {:induction false} PrintWellFormed(j: J.Json)
    ensures WellFormed(J.Print(j))
    decreases j, 0
  {
    match j
    case JNull => PlainWellFormed(J.NULL);
    case JBool(_) => PlainWellFormed(J.TRUE); PlainWellFormed(J.FALSE);
    case JNumber(n) => IntWellFormed(n);
    case JString(s) => QuoteWellFormed(s);
    case JArray(items) =>
      ItemsWellFormed(items);
      JoinWellFormed(J.PrintAll(items));
      WrapWellFormed(LEFT_BRACKET, J.Join(J.PrintAll(items)), RIGHT_BRACKET);
    case JObject(fields) =>
      FieldsWellFormed(fields);
      JoinWellFormed(J.PrintFields(fields));
      WrapWellFormed(LEFT_BRACE, J.Join(J.PrintFields(fields)), RIGHT_BRACE);
  }

  lemma {:induction false} ItemsWellFormed(items: seq<J.Json>)
    ensures forall i | 0 <= i < |items| :: WellFormed(J.PrintAll(items)[i])
    decreases items, 1
  {
    if items != [] {
      PrintWellFormed(items[0]);
      ItemsWellFormed(items[1..]);
    }
  }

  lemma {:induction false} FieldsWellFormed(fields: seq<J.Entry<J.Json>>)
    ensures forall i | 0 <= i < |fields| :: WellFormed(J.PrintFields(fields)[i])
    decreases fields, 1
  {
    if fields != [] {
      var key := J.Quote(fields[0].key);
      QuoteWellFormed(fields[0].key);
      UnitWellFormed(COLON);
      WellFormedConcat(key, [COLON]);
      PrintWellFormed(fields[0].value);
      WellFormedConcat(key + [COLON], J.Print(fields[0].value));
      FieldsWellFormed(fields[1..]);
    }
  }
}
