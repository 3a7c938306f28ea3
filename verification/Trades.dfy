/** Rows of `trading.trades` and the object that is hashed for a row. */
module Trades {
  import opened Texts
  import opened Canonical
  import opened HashChain
  import J = Json

  datatype Side = BUY | SELL

  /** A trade row. `quantity` and `price` are texts: what the recorder hashes, or what a
      verifier reads back from the column. */
  datatype Trade = Trade(
    tradeId: Text,
    orderId: Text,
    brokerId: Text,
    symbol: Text,
    side: Side,
    quantity: Text,
    price: Text,
    executedAt: Text,
    prevHash: Text,
    hash: Text)

  function SideText(s: Side): Text {
    match s
    case BUY => Ascii("BUY")
    case SELL => Ascii("SELL")
  }

  /** The names of the hashed fields. */
  function FieldNames(): (names: seq<Text>)
    ensures |names| == 9
  {
    [Ascii("tradeId"), Ascii("orderId"), Ascii("brokerId"), Ascii("symbol"), Ascii("side"),
     Ascii("quantity"), Ascii("price"), Ascii("executedAt"), Ascii("prevHash")]
  }

  function Columns(t: Trade): (columns: seq<Text>)
    ensures |columns| == 9
  {
    [t.tradeId, t.orderId, t.brokerId, t.symbol, SideText(t.side),
     t.quantity, t.price, t.executedAt, t.prevHash]
  }

  /** An object with the given field names and string values. */
  function StringObject(names: seq<Text>, values: seq<Text>): Value
    requires |names| == |values|
  {
    Object(seq(|names|, i requires 0 <= i < |names| => J.Entry(names[i], Str(values[i]))))
  }

  function Record(t: Trade): Value {
    StringObject(FieldNames(), Columns(t))
  }

  function Item(t: Trade): ChainItem {
    ChainItem(t.hash, t.prevHash, Record(t))
  }

  predicate Distinct(names: seq<Text>) {
    forall i, j | 0 <= i < j < |names| :: names[i] != names[j]
  }

  lemma FieldNamesDistinct()
    ensures Distinct(FieldNames())
  {
    var names := FieldNames();
    var lengths := [7, 7, 8, 6, 4, 8, 5, 10, 8];
    assert forall i | 0 <= i < 9 :: |names[i]| == lengths[i];
    assert names[0][0] == 't' as int && names[1][0] == 'o' as int;
    assert names[2][0] == 'b' as int && names[5][0] == 'q' as int && names[8][0] == 'p' as int;
  }

  lemma StringObjectSerializable(names: seq<Text>, values: seq<Text>)
    requires |names| == |values| && Distinct(names)
    ensures Valid(StringObject(names, values)) && Serializable(StringObject(names, values))
  {
  }

  /** Objects with the same field names are equal by value exactly when all values are. */
  lemma StringObjectSame(names: seq<Text>, xs: seq<Text>, ys: seq<Text>)
    requires |names| == |xs| == |ys| && Distinct(names)
    ensures Same(StringObject(names, xs), StringObject(names, ys)) <==> xs == ys
  {
    var ps, qs := StringObject(names, xs).props, StringObject(names, ys).props;
    forall i | 0 <= i < |names| ensures HasSame(qs, ps[i]) <==> xs[i] == ys[i] {
      assert qs[i] in qs;
      forall q | q in qs && q.key == names[i] ensures q == qs[i] {
      }
    }
    forall i | 0 <= i < |names| ensures HasKey(ps, qs[i].key) {
      assert ps[i] in ps;
    }
    assert forall i | 0 <= i < |names| :: ps[i] in ps;
  }

  lemma RecordSerializable(t: Trade)
    ensures Valid(Record(t)) && Canon(Record(t)).Ok?
  {
    FieldNamesDistinct();
    StringObjectSerializable(FieldNames(), Columns(t));
    CanonTotal(Record(t));
  }

  /** Records are equal by value exactly when all columns but the hash are equal. */
  lemma RecordSame(a: Trade, b: Trade)
    ensures Same(Record(a), Record(b)) <==> a == b.(hash := a.hash)
  {
    FieldNamesDistinct();
    StringObjectSame(FieldNames(), Columns(a), Columns(b));
    ColumnsUnique(a, b);
  }

  lemma ColumnsUnique(a: Trade, b: Trade)
    ensures Columns(a) == Columns(b) <==> a == b.(hash := a.hash)
  {
    var x, y := Columns(a), Columns(b);
    if x == y {
      assert x[0] == y[0] && x[1] == y[1] && x[2] == y[2] && x[3] == y[3] && x[4] == y[4];
      assert x[5] == y[5] && x[6] == y[6] && x[7] == y[7] && x[8] == y[8];
      assert SideText(a.side)[0] == SideText(b.side)[0];
    }
  }
}
