/** What the serializer's text says, apart from how it is printed: it reads as JSON that means the
    value, it is the only such text, and for a trade it is spelled out in full. */
module CanonicalText {
  import opened Texts
  import opened Canonical
  import opened HashChain
  import opened JsonReader
  import opened Trades
  import Digits
  import J = Json
  import P = PendingActions
  import Utf8
  import opened Utf8Reader

  // ----- What a JSON value means -----

  /** The order of strings by code units. */
  ghost predicate Before(a: Text, b: Text) {
    exists k: nat | k <= |a| && k < |b| ::
      a[..k] == b[..k] && (k == |a| || a[k] < b[k])
  }

  ghost predicate KeysAscend(fields: seq<J.Entry<J.Json>>) {
    forall i, j | 0 <= i < j < |fields| :: Before(fields[i].key, fields[j].key)
  }

  /** The JSON value stands for `v`: absent values are null, big integers their decimal digits, dates
      their ISO text, elements stay in place, and an object has its defined properties, in ascending
      order of their names. */
  ghost predicate Means(j: J.Json, v: Value)
    decreases v, 0
  {
    match v
    case Undefined => j == J.JNull
    case Null => j == J.JNull
    case Boolean(b) => j == J.JBool(b)
    case Number(n) => j == J.JNumber(n)
    case BigInt(n) => j.JString? && ReadInteger(j.s) == Found(n, [])
    case Str(s) => j == J.JString(s)
    case Date(iso) => j == J.JString(iso)
    case Array(items) =>
      j.JArray? && |j.items| == |items| && forall i | 0 <= i < |items| :: Means(j.items[i], items[i])
    case Custom(x) => Means(j, x)
    case Object(props) =>
      && j.JObject? && KeysAscend(j.fields)
      && (forall p {:trigger Stands(j.fields, p)} | p in props && !p.value.Undefined? :: Stands(j.fields, p))
      && (forall f {:trigger Named(props, f.key)} | f in j.fields :: Named(props, f.key))
    case NonFinite => false
    case Unserializable => false
  }

  ghost predicate Stands(fields: seq<J.Entry<J.Json>>, p: J.Entry<Value>)
    decreases p.value, 1
  {
    exists f | f in fields :: f.key == p.key && Means(f.value, p.value)
  }

  /** A defined property has the name. */
  ghost predicate Named(props: seq<J.Entry<Value>>, key: Text) {
    exists p | p in props :: !p.value.Undefined? && p.key == key
  }

  lemma {:induction false} LessBefore(a: Text, b: Text) returns (k: nat)
    requires Less(a, b)
    ensures k <= |a| && k < |b| && a[..k] == b[..k] && (k == |a| || a[k] < b[k])
  {
    if a == [] || a[0] < b[0] {
      k := 0;
    } else {
      var m := LessBefore(a[1..], b[1..]);
      k := m + 1;
      assert a[..k] == [a[0]] + a[1..][..m] && b[..k] == [b[0]] + b[1..][..m];
    }
  }

  lemma SortedAscends(fields: seq<J.Entry<J.Json>>)
    requires Sorted(fields)
    ensures KeysAscend(fields)
  {
    forall i, j | 0 <= i < j < |fields| ensures Before(fields[i].key, fields[j].key) {
      var k := LessBefore(fields[i].key, fields[j].key);
    }
  }

  lemma {:induction false} NormalMeans(v: Value)
    requires Valid(v) && Normalize(v).Ok?
    ensures Means(Normalize(v).value, v)
    decreases v
  {
    match v
    case BigInt(n) =>
      IntegerReads(n, []);
      assert Digits.PrintInt(n) + [] == Digits.PrintInt(n);
    case Array(items) => ArrayMeans(items);
    case Custom(x) => NormalMeans(x);
    case Object(props) => ObjectMeans(props);
    case _ =>
  }

  lemma {:induction false} ArrayMeans(items: seq<Value>)
    requires Valid(Array(items)) && NormalizeAll(items).Ok?
    ensures Means(Normalize(Array(items)).value, Array(items))
    decreases Array(items), 0
  {
    NormalizeAllLength(items);
    forall i | 0 <= i < |items| ensures Means(NormalizeAll(items).value[i], items[i]) {
      NormalizeAllAt(items, i);
      NormalMeans(items[i]);
    }
  }

  lemma {:induction false} ObjectMeans(props: seq<J.Entry<Value>>)
    requires Valid(Object(props)) && NormalizeProps(props).Ok?
    ensures Means(Normalize(Object(props)).value, Object(props))
    decreases Object(props), 0
  {
    var plain := NormalizeProps(props).value;
    NormalizedUnique(props);
    SortSorted(plain);
    SortedAscends(Sort(plain));
    NormalizePropsTotal(props);
    forall p | p in props && !p.value.Undefined? ensures Stands(Sort(plain), p) {
      NormalizeTotal(p.value);
      NormalMeans(p.value);
      var f := J.Entry(p.key, Normalize(p.value).value);
      NormalizedKeys(props, f);
      SortMember(plain, f);
    }
    forall f | f in Sort(plain) ensures Named(props, f.key) {
      SortMember(plain, f);
      NormalizedKeys(props, f);
    }
  }

  /** For every value that can be serialized: the text reads, to its end, as JSON that means the value,
      and no other text reads so. */
  lemma CanonReads(v: Value)
    requires Valid(v) && Canon(v).Ok?
    ensures var r := ReadValue(Canon(v).value); r.Found? && r.rest == [] && Means(r.value, v)
    ensures forall t: Text :: ReadValue(t) == ReadValue(Canon(v).value) ==> t == Canon(v).value
  {
    var j := Normalize(v).value;
    assert J.Print(j) + [] == J.Print(j);
    ValueReads(j, []);
    NormalMeans(v);
    forall t: Text | ReadValue(t) == Found(j, []) ensures t == J.Print(j) {
      ValueOnly(t);
    }
  }

  // ----- The text of a trade -----

  /** `"name":"value"` */
  function Member(name: Text, value: Text): Text {
    [0x22] + name + [0x22, 0x3A] + J.Quote(value)
  }

  function Comma(a: Text, b: Text): Text {
    a + [0x2C] + b
  }

  const BROKER_ID: Text := Ascii("brokerId")
  const EXECUTED_AT: Text := Ascii("executedAt")
  const ORDER_ID: Text := Ascii("orderId")
  const PREV_HASH: Text := Ascii("prevHash")
  const PRICE: Text := Ascii("price")
  const QUANTITY: Text := Ascii("quantity")
  const SIDE: Text := Ascii("side")
  const SYMBOL: Text := Ascii("symbol")
  const TRADE_ID: Text := Ascii("tradeId")

  /** The nine columns that are hashed, named and in ascending order of their names. */
  function TradeText(t: Trade): Text {
    [0x7B]
    + Comma(Member(BROKER_ID, t.brokerId), Comma(Member(EXECUTED_AT, t.executedAt),
      Comma(Member(ORDER_ID, t.orderId), MiddleText(t))))
    + [0x7D]
  }

  function MiddleText(t: Trade): Text {
    Comma(Member(PREV_HASH, t.prevHash), Comma(Member(PRICE, t.price), Comma(Member(QUANTITY, t.quantity), LastText(t))))
  }

  function LastText(t: Trade): Text {
    Comma(Member(SIDE, if t.side == BUY then [0x42, 0x55, 0x59] else [0x53, 0x45, 0x4C, 0x4C]),
          Comma(Member(SYMBOL, t.symbol), Member(TRADE_ID, t.tradeId)))
  }

  function Field(name: Text, value: Text): J.Entry<J.Json> {
    J.Entry(name, J.JString(value))
  }

  /** The same as fields, in ascending order. */
  function TradeFields(t: Trade): (fields: seq<J.Entry<J.Json>>)
    ensures |fields| == 9
  {
    [Field(BROKER_ID, t.brokerId), Field(EXECUTED_AT, t.executedAt), Field(ORDER_ID, t.orderId),
     Field(PREV_HASH, t.prevHash), Field(PRICE, t.price), Field(QUANTITY, t.quantity),
     Field(SIDE, SideText(t.side)), Field(SYMBOL, t.symbol), Field(TRADE_ID, t.tradeId)]
  }

  lemma LessHere(a: Text, b: Text, k: nat)
    requires k < |a| && k < |b| && a[..k] == b[..k] && a[k] < b[k]
    ensures Less(a, b)
    decreases k
  {
    if k > 0 {
      assert a[0] == a[..k][0] == b[..k][0] == b[0];
      assert a[1..][..k - 1] == a[..k][1..] && b[1..][..k - 1] == b[..k][1..];
      LessHere(a[1..], b[1..], k - 1);
    }
  }

  lemma NamesAscend(t: Trade)
    ensures forall i | 0 <= i < 8 :: Less(TradeFields(t)[i].key, TradeFields(t)[i + 1].key)
  {
    LessHere(BROKER_ID, EXECUTED_AT, 0);
    LessHere(EXECUTED_AT, ORDER_ID, 0);
    LessHere(ORDER_ID, PREV_HASH, 0);
    LessHere(PREV_HASH, PRICE, 2);
    LessHere(PRICE, QUANTITY, 0);
    LessHere(QUANTITY, SIDE, 0);
    LessHere(SIDE, SYMBOL, 1);
    LessHere(SYMBOL, TRADE_ID, 0);
  }

  lemma {:induction false} AscendingChain(fields: seq<J.Entry<J.Json>>, i: nat, j: nat)
    requires forall k | 0 <= k < |fields| - 1 :: Less(fields[k].key, fields[k + 1].key)
    requires i < j < |fields|
    ensures Less(fields[i].key, fields[j].key)
    decreases j
  {
    if i < j - 1 {
      AscendingChain(fields, i, j - 1);
      LessTransitive(fields[i].key, fields[j - 1].key, fields[j].key);
    }
  }

  lemma {:induction false} StringsNormalize(names: seq<Text>, values: seq<Text>)
    requires |names| == |values|
    ensures var r := NormalizeProps(StringObject(names, values).props);
            r.Ok? && |r.value| == |names| && forall i | 0 <= i < |names| :: r.value[i] == Field(names[i], values[i])
  {
    var props := StringObject(names, values).props;
    if names != [] {
      StringsNormalize(names[1..], values[1..]);
      assert props[1..] == StringObject(names[1..], values[1..]).props;
    }
  }

  lemma SameMembers(t: Trade, plain: seq<J.Entry<J.Json>>)
    requires |plain| == 9 && forall i | 0 <= i < 9 :: plain[i] == Field(FieldNames()[i], Columns(t)[i])
    ensures forall f :: f in plain <==> f in TradeFields(t)
  {
    var fields := TradeFields(t);
    assert plain == [fields[8], fields[2], fields[0], fields[7], fields[6], fields[5], fields[4], fields[1], fields[3]];
  }

  lemma RecordNormal(t: Trade)
    ensures Normalize(Record(t)) == Ok(J.JObject(TradeFields(t)))
  {
    var props := StringObject(FieldNames(), Columns(t)).props;
    StringsNormalize(FieldNames(), Columns(t));
    var plain := NormalizeProps(props).value;
    FieldNamesDistinct();
    SortSorted(plain);
    NamesAscend(t);
    forall i, j | 0 <= i < j < 9 ensures Less(TradeFields(t)[i].key, TradeFields(t)[j].key) {
      AscendingChain(TradeFields(t), i, j);
    }
    SameMembers(t, plain);
    forall f ensures f in Sort(plain) <==> f in TradeFields(t) {
      SortMember(plain, f);
    }
    SortedUnique(Sort(plain), TradeFields(t));
  }

  /** The printed fields from position `i` on. */
  function TextFrom(fields: seq<J.Entry<J.Json>>, i: nat): Text
    requires i <= |fields|
  {
    J.Join(J.PrintFields(fields[i..]))
  }

  lemma TextCons(f: J.Entry<J.Json>, rest: seq<J.Entry<J.Json>>, part: Text)
    requires f.value.JString? && part == J.Quote(f.key) + [0x3A] + J.Quote(f.value.s)
    ensures J.Join(J.PrintFields([f] + rest)) == if rest == [] then part else Comma(part, J.Join(J.PrintFields(rest)))
  {
    assert ([f] + rest)[1..] == rest;
    assert J.PrintFields([f] + rest) == [part] + J.PrintFields(rest);
    assert ([part] + J.PrintFields(rest))[1..] == J.PrintFields(rest);
  }

  lemma MemberIs(name: Text, value: Text)
    requires IsPlain(name)
    ensures Member(name, value) == J.Quote(name) + [0x3A] + J.Quote(value)
  {
    PlainQuoted(name);
  }

  lemma TextStep(fields: seq<J.Entry<J.Json>>, i: nat, name: Text, value: Text)
    requires i < |fields| && fields[i] == Field(name, value) && IsPlain(name)
    ensures TextFrom(fields, i)
            == if i + 1 == |fields| then Member(name, value) else Comma(Member(name, value), TextFrom(fields, i + 1))
  {
    MemberIs(name, value);
    TextCons(fields[i], fields[i + 1..], Member(name, value));
    assert fields[i..] == [fields[i]] + fields[i + 1..];
  }

  predicate IsPlain(s: Text) {
    forall i | 0 <= i < |s| :: 0x20 <= s[i] <= 0x7E && s[i] != 0x22 && s[i] != 0x5C
  }

  lemma {:induction false} PlainEscaped(s: Text)
    requires IsPlain(s)
    ensures J.Escape(s) == s
  {
    if s != [] {
      PlainEscaped(s[1..]);
      assert s == [s[0]] + s[1..];
    }
  }

  /** Printable ASCII without quotes and backslashes is quoted as it is. */
  lemma PlainQuoted(s: Text)
    requires IsPlain(s)
    ensures J.Quote(s) == [0x22] + s + [0x22]
  {
    PlainEscaped(s);
  }

  /** Three fields in a row. */
  lemma ThreePrinted(fields: seq<J.Entry<J.Json>>, i: nat, n0: Text, v0: Text, n1: Text, v1: Text, n2: Text, v2: Text)
    requires i + 3 <= |fields| && IsPlain(n0) && IsPlain(n1) && IsPlain(n2)
    requires fields[i] == Field(n0, v0) && fields[i + 1] == Field(n1, v1) && fields[i + 2] == Field(n2, v2)
    ensures var last := if i + 3 == |fields| then Member(n2, v2) else Comma(Member(n2, v2), TextFrom(fields, i + 3));
            TextFrom(fields, i) == Comma(Member(n0, v0), Comma(Member(n1, v1), last))
  {
    TextStep(fields, i + 2, n2, v2);
    TextStep(fields, i + 1, n1, v1);
    TextStep(fields, i, n0, v0);
  }

  lemma FirstNamesPlain()
    ensures IsPlain(BROKER_ID) && IsPlain(EXECUTED_AT) && IsPlain(ORDER_ID)
  {
  }

  lemma MiddleNamesPlain()
    ensures IsPlain(PREV_HASH) && IsPlain(PRICE) && IsPlain(QUANTITY)
  {
  }

  lemma LastNamesPlain()
    ensures IsPlain(SIDE) && IsPlain(SYMBOL) && IsPlain(TRADE_ID)
  {
  }

  lemma LastPrinted(t: Trade, f: seq<J.Entry<J.Json>>)
    requires f == TradeFields(t)
    ensures TextFrom(f, 6) == LastText(t)
  {
    LastNamesPlain();
    SideSpelled(t.side);
    ThreePrinted(f, 6, SIDE, SideText(t.side), SYMBOL, t.symbol, TRADE_ID, t.tradeId);
  }

  lemma MiddlePrinted(t: Trade, f: seq<J.Entry<J.Json>>)
    requires f == TradeFields(t) && TextFrom(f, 6) == LastText(t)
    ensures TextFrom(f, 3) == MiddleText(t)
  {
    MiddleNamesPlain();
    ThreePrinted(f, 3, PREV_HASH, t.prevHash, PRICE, t.price, QUANTITY, t.quantity);
  }

  lemma TradePrinted(t: Trade, f: seq<J.Entry<J.Json>>)
    requires f == TradeFields(t) && TextFrom(f, 3) == MiddleText(t)
    ensures [0x7B] + TextFrom(f, 0) + [0x7D] == TradeText(t)
  {
    FirstNamesPlain();
    ThreePrinted(f, 0, BROKER_ID, t.brokerId, EXECUTED_AT, t.executedAt, ORDER_ID, t.orderId);
  }

  lemma ObjectPrinted(fields: seq<J.Entry<J.Json>>)
    ensures J.Print(J.JObject(fields)) == [0x7B] + TextFrom(fields, 0) + [0x7D]
  {
    assert fields[0..] == fields;
  }

  lemma SideSpelled(s: Side)
    ensures SideText(s) == if s == BUY then [0x42, 0x55, 0x59] else [0x53, 0x45, 0x4C, 0x4C]
  {
  }

  /** The exact text that is hashed for a trade. */
  lemma RecordText(t: Trade)
    ensures Canon(Record(t)) == Ok(TradeText(t))
  {
    var fields := TradeFields(t);
    RecordNormal(t);
    LastPrinted(t, fields);
    MiddlePrinted(t, fields);
    TradePrinted(t, fields);
    ObjectPrinted(fields);
  }

  /** The pattern of a previous hash, and the first one. */
  lemma HashPattern(t: Text)
    ensures IsHex64(t)
            <==> |t| == 64
                 && forall i | 0 <= i < 64 :: 0x30 <= t[i] <= 0x39 || 0x41 <= t[i] <= 0x46 || 0x61 <= t[i] <= 0x66
    ensures |GENESIS_HASH| == 64 && forall i | 0 <= i < 64 :: GENESIS_HASH[i] == 0x30
  {
    HexDigitAt(t);
  }

  /** The exact bytes that are hashed for a trade: they read as UTF-8 to the previous hash, a bar, and
      the trade's text. */
  lemma HashedBytes(h: Digest, t: Trade, prev: Text) returns (bytes: Utf8.Bytes)
    requires IsHex64(prev)
    ensures ComputeHash(Canonically(h), Record(t), prev) == Ok(h(bytes))
    ensures Decode(bytes) == P.Some(prev + [0x7C] + TradeText(t))
  {
    var text := prev + [0x7C] + TradeText(t);
    RecordText(t);
    CanonWellFormed(Record(t));
    HashPattern(prev);
    Utf8.PlainWellFormed(prev + [0x7C]);
    Utf8.WellFormedConcat(prev + [0x7C], TradeText(t));
    bytes := Utf8.Encode(text);
    EncodedReads(text);
  }
}
