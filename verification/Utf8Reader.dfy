/** A reader of UTF-8 (section 3 of RFC 3629), written apart from the encoder: it accepts shortest
    forms only and no encoded surrogates, and gives code points above U+FFFF as surrogate pairs. */
module Utf8Reader {
  import opened Texts
  import J = Json
  import opened PendingActions
  import Utf8

  predicate IsContinuation(b: Utf8.Byte) { 0x80 <= b <= 0xBF }

  /** How many bytes a code point takes that begins with `b`; 0 if none does. */
  function Length(b: Utf8.Byte): nat {
    if b <= 0x7F then 1
    else if 0xC2 <= b <= 0xDF then 2
    else if 0xE0 <= b <= 0xEF then 3
    else if 0xF0 <= b <= 0xF4 then 4
    else 0
  }

  predicate Continued(bytes: Utf8.Bytes, n: nat) {
    0 < n <= |bytes| && forall i | 1 <= i < n :: IsContinuation(bytes[i])
  }

  /** The code point of the first `n` bytes. */
  function CodePoint(bytes: Utf8.Bytes, n: nat): int
    requires 1 <= n <= 4 && Continued(bytes, n)
  {
    var lead: int := bytes[0];
    if n == 1 then lead
    else
      var second: int := bytes[1];
      if n == 2 then (lead - 0xC0) * 0x40 + second - 0x80
      else
        var third: int := bytes[2];
        if n == 3 then (lead - 0xE0) * 0x1000 + (second - 0x80) * 0x40 + third - 0x80
        else
          var fourth: int := bytes[3];
          (lead - 0xF0) * 0x40000 + (second - 0x80) * 0x1000 + (third - 0x80) * 0x40 + fourth - 0x80
  }

  /** The UTF-16 units of a code point that takes `n` bytes, if it may take that many. */
  function Units(p: int, n: nat): Option<Text> {
    if n == 1 && 0 <= p <= 0x7F then Some([p])
    else if n == 2 && 0x80 <= p <= 0x7FF then Some([p])
    else if n == 3 && 0x800 <= p <= 0xFFFF && !(0xD800 <= p <= 0xDFFF) then Some([p])
    else if n == 4 && 0x10000 <= p <= 0x10FFFF then
      Some([0xD800 + (p - 0x10000) / 0x400, 0xDC00 + (p - 0x10000) % 0x400])
    else None
  }

  function Decode(bytes: Utf8.Bytes): Option<Text> {
    if bytes == [] then Some([])
    else
      var n := Length(bytes[0]);
      if !Continued(bytes, n) then None
      else
        var head, rest := Units(CodePoint(bytes, n), n), Decode(bytes[n..]);
        if head.None? || rest.None? then None else Some(head.value + rest.value)
  }

  // ----- What is encoded reads back -----

  lemma UnitDecodes(c: CodeUnit, x: Utf8.Bytes)
    requires !Utf8.IsSurrogate(c)
    ensures var b := Utf8.EncodeUnit(c) + x; var n := |Utf8.EncodeUnit(c)|;
            && Length(b[0]) == n && 1 <= n <= 3 && Continued(b, n) && b[n..] == x
            && Units(CodePoint(b, n), n) == Some([c])
  {
    var e := Utf8.EncodeUnit(c);
    var b := e + x;
    assert forall i | 0 <= i < |e| :: b[i] == e[i];
    Utf8.Sextets(c);
    assert c / 4096 * 64 + c / 64 % 64 == c / 64;
  }

  lemma PairDecodes(high: CodeUnit, low: CodeUnit, x: Utf8.Bytes)
    requires J.IsHigh(high) && J.IsLow(low)
    ensures var b := Utf8.EncodePair(high, low) + x;
            Length(b[0]) == 4 && Continued(b, 4) && b[4..] == x && Units(CodePoint(b, 4), 4) == Some([high, low])
  {
    var e := Utf8.EncodePair(high, low);
    var b := e + x;
    assert forall i | 0 <= i < 4 :: b[i] == e[i];
    var p := 0x10000 + (high - 0xD800) * 1024 + (low - 0xDC00);
    FourSextets(p);
    assert CodePoint(b, 4) == p;
    PairUnits(high, low, p);
  }

  lemma FourSextets(p: nat)
    ensures p == p / 262144 * 262144 + p / 4096 % 64 * 4096 + p / 64 % 64 * 64 + p % 64
  {
    Utf8.Sextets(p);
  }

  lemma PairUnits(high: CodeUnit, low: CodeUnit, p: int)
    requires J.IsHigh(high) && J.IsLow(low) && p == 0x10000 + (high - 0xD800) * 1024 + (low - 0xDC00)
    ensures Units(p, 4) == Some([high, low])
  {
    assert (p - 0x10000) / 0x400 == high - 0xD800 && (p - 0x10000) % 0x400 == low - 0xDC00;
  }

  lemma HeadDecodes(t: Text, x: Utf8.Bytes)
    requires t != [] && Utf8.WellFormed(t)
    ensures var b := Utf8.EncodeHead(t) + x; var n := |Utf8.EncodeHead(t)|;
            && Length(b[0]) == n && 1 <= n <= 4 && Continued(b, n) && b[n..] == x
            && Units(CodePoint(b, n), n) == Some(t[..J.Width(t)])
  {
    if J.StartsPair(t) {
      PairDecodes(t[0], t[1], x);
      assert t[..2] == [t[0], t[1]];
    } else {
      UnitDecodes(t[0], x);
      assert t[..1] == [t[0]];
    }
  }

  /** Well-formed text comes back from its bytes. */
  lemma {:induction false} EncodedReads(t: Text)
    requires Utf8.WellFormed(t)
    ensures Decode(Utf8.Encode(t)) == Some(t)
    decreases |t|
  {
    if t != [] {
      var w := J.Width(t);
      EncodedReads(t[w..]);
      HeadDecodes(t, Utf8.Encode(t[w..]));
      assert t == t[..w] + t[w..];
    }
  }

  // ----- Lone surrogates -----

  /** Every surrogate without its partner becomes U+FFFD. */
  function Replaced(t: Text): Text {
    if t == [] then []
    else if |t| >= 2 && 0xD800 <= t[0] <= 0xDBFF && 0xDC00 <= t[1] <= 0xDFFF then t[..2] + Replaced(t[2..])
    else (if 0xD800 <= t[0] <= 0xDFFF then [0xFFFD] else [t[0]]) + Replaced(t[1..])
  }

  lemma ReplacementDecodes(x: Utf8.Bytes)
    ensures var b := Utf8.REPLACEMENT + x; var n := |Utf8.REPLACEMENT|;
            n == 3 && Length(b[0]) == n && Continued(b, n) && b[n..] == x && Units(CodePoint(b, n), n) == Some([0xFFFD])
  {
    var b := Utf8.REPLACEMENT + x;
    assert forall i | 0 <= i < 3 :: b[i] == Utf8.REPLACEMENT[i];
  }

  /** Any text comes back with its lone surrogates replaced. */
  lemma {:induction false} EncodedReplaces(t: Text)
    ensures Decode(Utf8.Encode(t)) == Some(Replaced(t))
    decreases |t|
  {
    if t != [] {
      var x := Utf8.Encode(t[J.Width(t)..]);
      EncodedReplaces(t[J.Width(t)..]);
      if J.StartsPair(t) {
        PairDecodes(t[0], t[1], x);
        assert t[..2] == [t[0], t[1]];
      } else if Utf8.IsSurrogate(t[0]) {
        ReplacementDecodes(x);
      } else {
        UnitDecodes(t[0], x);
      }
    }
  }
}
