/** Verifying what was recorded: the columns give quantity and price back with four decimals,
    while the recorder hashed their canonical texts. */
module Rereading {
  import opened Texts
  import opened Canonical
  import opened HashChain
  import opened Trades
  import opened Recorder
  import V = Verifiers
  import M = MoneyText
  import N = NumericColumns
  import U = ColumnUnits
  import Decimals
  import Digits
  import Money
  import Orders
  import TradeLog
  import Utf8

  // ----- What recorded rows have in common -----

  /** The text is what `toString` prints for some decimal. */
  predicate IsCanonicalText(t: Text) {
    M.Parse(t).Ok? && M.Print(M.Parse(t).value) == t
  }

  /** How many decimals a canonical text needs. */
  function Places(t: Text): nat {
    if M.Parse(t).Ok? then M.Parse(t).value.scale else 0
  }

  predicate Sent(t: Trade) {
    IsCanonicalText(t.quantity) && IsCanonicalText(t.price)
  }

  predicate FitsColumns(t: Trade) {
    Places(t.quantity) <= N.PLACES && Places(t.price) <= N.PLACES
  }

  /** The fill's own texts need at most four decimals, as texts read from a column do. */
  predicate ShortFill(f: Fill) {
    Places(f.quantity) <= N.PLACES && Places(f.price) <= N.PLACES
  }

  /** Whatever holds of every trade recorded for the fills that were begun holds of every row. */
  lemma {:induction false} RowsSatisfy(s: Scheme, labels: seq<Label>, allowed: Fill -> bool, good: Trade -> bool)
    requires forall l | l in labels :: l.Begin? ==> allowed(l.fill)
    requires forall f: Fill, prev: Text ::
               allowed(f) && Recorded(s, f, prev).Ok? ==> good(Recorded(s, f, prev).value)
    ensures Satisfied(Run(s, labels), allowed, good)
  {
    if labels != [] {
      var n := |labels| - 1;
      RowsSatisfy(s, labels[..n], allowed, good);
      StepSatisfies(s, Run(s, labels[..n]), labels[n], allowed, good);
    }
  }

  predicate Satisfied(st: State, allowed: Fill -> bool, good: Trade -> bool) {
    && (forall r | r in st.rows :: good(r.trade))
    && (forall tx | tx in st.txs :: allowed(st.txs[tx].fill))
    && (forall tx | tx in st.txs :: st.txs[tx].Inserted? ==> good(st.txs[tx].row.trade))
  }

  lemma StepSatisfies(s: Scheme, st: State, l: Label, allowed: Fill -> bool, good: Trade -> bool)
    requires Satisfied(st, allowed, good) && (l.Begin? ==> allowed(l.fill))
    requires forall f: Fill, prev: Text ::
               allowed(f) && Recorded(s, f, prev).Ok? ==> good(Recorded(s, f, prev).value)
    ensures Satisfied(Step(s, st, l), allowed, good)
  {
  }

  /** A recorded trade carries the fill's own values: names and times as they are, amounts equal as
      numbers and printed canonically. */
  lemma RecordedTexts(s: Scheme, f: Fill, prev: Text)
    requires Recorded(s, f, prev).Ok?
    ensures var t := Recorded(s, f, prev).value;
            && t.tradeId == f.tradeId && t.orderId == f.orderId && t.brokerId == f.brokerId
            && t.symbol == f.symbol && t.side == f.side && t.executedAt == f.executedAt && t.prevHash == prev
            && M.Parse(f.quantity).Ok? && M.Parse(t.quantity) == Ok(M.Plain(M.Parse(f.quantity).value))
            && M.Parse(f.price).Ok? && M.Parse(t.price) == Ok(M.Plain(M.Parse(f.price).value))
    ensures Sent(Recorded(s, f, prev).value)
    ensures Places(Recorded(s, f, prev).value.quantity) == Places(f.quantity)
    ensures Places(Recorded(s, f, prev).value.price) == Places(f.price)
  {
    M.ParsePrint(M.Parse(f.quantity).value);
    M.ParsePrint(M.Parse(f.price).value);
  }

  /** A fill is recorded exactly if its texts can be read and fit their columns and the previous hash
      is well formed; the row's hash is the digest of that hash, a bar and the row's own text. */
  lemma RecordedExactly(h: Digest, f: Fill, prev: Text)
    ensures var s := Canonically(h); var q, p := M.Parse(f.quantity), M.Parse(f.price);
            && (Recorded(s, f, prev).Ok? <==>
                  && q.Ok? && p.Ok? && IsHex64(prev)
                  && U.Kept(q.value.mag, q.value.scale) < U.LIMIT
                  && U.Kept(p.value.mag, p.value.scale) < U.LIMIT)
            && (Recorded(s, f, prev).Ok? ==>
                  var item := Item(Recorded(s, f, prev).value);
                  s.serialize(item.record).Ok? && item.hash == V.DigestOf(s, item))
  {
    var q, p := M.Parse(f.quantity), M.Parse(f.price);
    if q.Ok? && p.Ok? {
      U.SignedKept(q.value);
      U.SignedKept(p.value);
      RecordSerializable(Trade(f.tradeId, f.orderId, f.brokerId, f.symbol, f.side, M.Print(q.value), M.Print(p.value),
                               f.executedAt, prev, []));
    }
    if Recorded(Canonically(h), f, prev).Ok? { RecordSerializable(Recorded(Canonically(h), f, prev).value); }
  }

  lemma RowsSent(s: Scheme, labels: seq<Label>)
    ensures forall r | r in Run(s, labels).rows :: Sent(r.trade)
  {
    forall f: Fill, prev: Text | Recorded(s, f, prev).Ok? ensures Sent(Recorded(s, f, prev).value) {
      RecordedTexts(s, f, prev);
    }
    RowsSatisfy(s, labels, f => true, t => Sent(t));
  }

  lemma RowsShort(s: Scheme, labels: seq<Label>)
    requires forall l | l in labels :: l.Begin? ==> ShortFill(l.fill)
    ensures forall r | r in Run(s, labels).rows :: FitsColumns(r.trade)
  {
    forall f: Fill, prev: Text | ShortFill(f) && Recorded(s, f, prev).Ok?
      ensures FitsColumns(Recorded(s, f, prev).value)
    {
      RecordedTexts(s, f, prev);
    }
    RowsSatisfy(s, labels, f => ShortFill(f), t => FitsColumns(t));
  }

  lemma WholeNumberShort(t: Text)
    requires t != [] && AllDigits(t)
    ensures Places(t) == 0
  {
    M.DotIndexAt(t, |t|);
    assert t[..|t|] == t;
    M.ParseSigned(false, t);
    assert M.Sign(false) + t == t;
    assert M.Scale(t) == 0;
  }

  /** The order processor takes its texts from `numeric(20,4)` columns or from the fallback. */
  lemma OrderFillsAreShort(f: Fill, quantity: int, price: int)
    requires f.quantity == N.UnitsText(quantity)
    requires f.price == N.UnitsText(price) || f.price == Orders.REFERENCE_PRICE_FALLBACK
    ensures ShortFill(f)
  {
    ColumnTextShort(quantity);
    ColumnTextShort(price);
    WholeNumberShort(Orders.REFERENCE_PRICE_FALLBACK);
  }

  lemma ColumnTextShort(units: int)
    ensures Places(N.UnitsText(units)) <= N.PLACES
  {
    N.ColumnReads(units);
  }

  // ----- Reading the columns back -----

  /** Column text, as the verifiers select it. */
  function Raw(t: Text): Text {
    if M.Parse(t).Ok? then N.ColumnText(M.Parse(t).value) else t
  }

  /** Column text, parsed and printed again. */
  function Reread(t: Text): Text {
    if M.Parse(t).Ok? then M.Print(N.Stored(M.Parse(t).value)) else t
  }

  function RawTrade(t: Trade): Trade {
    t.(quantity := Raw(t.quantity), price := Raw(t.price))
  }

  function RereadTrade(t: Trade): Trade {
    t.(quantity := Reread(t.quantity), price := Reread(t.price))
  }

  function ReadItems(rows: seq<Row>, read: Trade -> Trade): seq<ChainItem> {
    seq(|rows|, i requires 0 <= i < |rows| => Item(read(rows[i].trade)))
  }

  /** Reading changes neither hash. */
  ghost predicate KeepsHashes(rows: seq<Row>, read: Trade -> Trade) {
    forall r | r in rows ::
      read(r.trade).hash == r.trade.hash && read(r.trade).prevHash == r.trade.prevHash
  }

  /** A row whose columns read differently no longer matches its hash, and only such a row. */
  lemma ReadVerdict(h: Digest, t: Trade, u: Trade)
    requires HexDigest(h) && u.hash == t.hash && u.prevHash == t.prevHash
    requires ComputeHash(Canonically(h), Record(t), t.prevHash) == Ok(t.hash)
    requires !Collides(Canonically(h), Item(t), Item(u))
    ensures ComputeHash(Canonically(h), Record(u), u.prevHash) == Ok(u.hash) <==> u == t
  {
    var s := Canonically(h);
    if ComputeHash(s, Record(u), u.prevHash) == Ok(u.hash) {
      CanonicallySound(h);
      ItemPayloadUnique(s, Item(t), Item(u));
      RecordSerializable(t);
      RecordSerializable(u);
      EqualTextSame(Record(t), Record(u));
      RecordSame(t, u);
    }
  }

  lemma ReadRow(h: Digest, rows: seq<Row>, read: Trade -> Trade, i: nat)
    requires HexDigest(h) && i < |rows| && KeepsHashes(rows, read)
    requires Intact(Canonically(h), Items(rows))
    requires CollisionFree(Canonically(h), Items(rows) + ReadItems(rows, read))
    ensures LinkOk(ReadItems(rows, read), i)
    ensures HashOk(Canonically(h), ReadItems(rows, read), i) <==> read(rows[i].trade) == rows[i].trade
  {
    var s, xs, ys := Canonically(h), Items(rows), ReadItems(rows, read);
    assert Good(s, xs, i);
    assert rows[i] in rows && (i > 0 ==> rows[i - 1] in rows);
    assert xs[i] in xs + ys && ys[i] in xs + ys;
    ReadVerdict(h, rows[i].trade, read(rows[i].trade));
  }

  lemma RawTextSame(t: Text)
    requires IsCanonicalText(t)
    ensures Raw(t) == t <==> Places(t) == N.PLACES
  {
    N.RawSame(M.Parse(t).value);
  }

  lemma RereadTextSame(t: Text)
    requires IsCanonicalText(t)
    ensures Reread(t) == t <==> Places(t) <= N.PLACES
  {
    N.RereadSame(M.Parse(t).value);
  }

  /** One broker's rows after a run. */
  function Chain(h: Digest, labels: seq<Label>, b: Text): seq<Row> {
    OfBroker(Run(Canonically(h), labels).rows, b)
  }

  lemma ChainFacts(h: Digest, labels: seq<Label>, b: Text)
    ensures Intact(Canonically(h), Items(Chain(h, labels, b)))
    ensures forall r | r in Chain(h, labels, b) :: r in Run(Canonically(h), labels).rows && Sent(r.trade)
  {
    OneChain(Canonically(h), labels, b);
    RowsSent(Canonically(h), labels);
    forall r | r in Chain(h, labels, b) ensures r in Run(Canonically(h), labels).rows {
      OfBrokerMember(Run(Canonically(h), labels).rows, b, r);
    }
  }

  /** Read through the canonical printer, every chain recorded from column texts verifies. */
  lemma RereadVerifies(h: Digest, labels: seq<Label>, b: Text)
    requires forall l | l in labels :: l.Begin? ==> ShortFill(l.fill)
    ensures Intact(Canonically(h), ReadItems(Chain(h, labels, b), t => RereadTrade(t)))
  {
    var chain := Chain(h, labels, b);
    ChainFacts(h, labels, b);
    RowsShort(Canonically(h), labels);
    forall r | r in chain ensures RereadTrade(r.trade) == r.trade {
      RereadTextSame(r.trade.quantity);
      RereadTextSame(r.trade.price);
    }
    assert ReadItems(chain, t => RereadTrade(t)) == Items(chain);
  }

  /** For arbitrary fills it verifies exactly if no quantity or price needs a fifth decimal. */
  lemma RereadVerifiesExactly(h: Digest, labels: seq<Label>, b: Text)
    requires HexDigest(h)
    requires var chain := Chain(h, labels, b);
             CollisionFree(Canonically(h), Items(chain) + ReadItems(chain, t => RereadTrade(t)))
    ensures var chain := Chain(h, labels, b);
            Intact(Canonically(h), ReadItems(chain, t => RereadTrade(t)))
            <==> forall r | r in chain :: FitsColumns(r.trade)
  {
    var chain, read := Chain(h, labels, b), t => RereadTrade(t);
    var s, ys := Canonically(h), ReadItems(chain, read);
    ChainFacts(h, labels, b);
    forall i | 0 <= i < |chain| ensures Good(s, ys, i) <==> FitsColumns(chain[i].trade) {
      assert chain[i] in chain;
      ReadRow(h, chain, read, i);
      RereadTextSame(chain[i].trade.quantity);
      RereadTextSame(chain[i].trade.price);
    }
  }

  // ----- The worker's verifier on the raw column text -----

  function RawItems(rows: seq<Row>): seq<ChainItem> {
    ReadItems(rows, t => RawTrade(t))
  }

  predicate NeedsAllPlaces(t: Trade) {
    Places(t.quantity) == N.PLACES && Places(t.price) == N.PLACES
  }

  /** A hash mismatch on row `i`: the hash of the row as it is read, and the stored one. */
  predicate IsMismatch(s: Scheme, rows: seq<Row>, i: nat, found: V.Break) {
    && i < |rows| && found.row == i && found.reason == V.HASH_MISMATCH
    && Ok(found.expected) == V.Recomputed(s, Item(RawTrade(rows[i].trade)))
    && found.actual == rows[i].trade.hash != found.expected
  }

  lemma RecomputedOk(h: Digest, items: seq<ChainItem>, i: nat, t: Trade)
    requires i < |items| && Good(Canonically(h), items, i) && t.prevHash == items[i].prevHash
    ensures V.Recomputed(Canonically(h), Item(t)).Ok? && IsHex64(t.prevHash)
  {
    GoodHash(Canonically(h), items, i);
    RecordSerializable(t);
  }

  predicate Verdict(s: Scheme, rows: seq<Row>, i: nat)
    requires i < |rows|
  {
    var report := V.ReportAt(s, RawItems(rows), i);
    if NeedsAllPlaces(rows[i].trade) then report == []
    else |report| == 1 && IsMismatch(s, rows, i, report[0])
  }

  lemma RawVerdict(h: Digest, labels: seq<Label>, b: Text, i: nat)
    requires HexDigest(h) && i < |Chain(h, labels, b)|
    requires var chain := Chain(h, labels, b); CollisionFree(Canonically(h), Items(chain) + RawItems(chain))
    ensures Verdict(Canonically(h), Chain(h, labels, b), i)
    ensures IsHex64(RawItems(Chain(h, labels, b))[i].prevHash)
  {
    var chain := Chain(h, labels, b);
    ChainFacts(h, labels, b);
    assert chain[i] in chain;
    ReadRow(h, chain, t => RawTrade(t), i);
    RawTextSame(chain[i].trade.quantity);
    RawTextSame(chain[i].trade.price);
    RecomputedOk(h, Items(chain), i, RawTrade(chain[i].trade));
  }

  /** The positions, among the first `n` rows, of those whose quantity or price does not need all
      four decimals. */
  function ShortRows(rows: seq<Row>, n: nat): seq<nat>
    requires n <= |rows|
  {
    if n == 0 then []
    else ShortRows(rows, n - 1) + if NeedsAllPlaces(rows[n - 1].trade) then [] else [n - 1]
  }

  /** One hash mismatch for each position, in order, and nothing else. */
  predicate Lists(s: Scheme, rows: seq<Row>, breaks: seq<V.Break>, positions: seq<nat>) {
    |breaks| == |positions| && forall k | 0 <= k < |breaks| :: IsMismatch(s, rows, positions[k], breaks[k])
  }

  lemma ListsOneMore(s: Scheme, rows: seq<Row>, breaks: seq<V.Break>, positions: seq<nat>, report: seq<V.Break>, i: nat,
                     more: seq<V.Break>, moved: seq<nat>)
    requires Lists(s, rows, breaks, positions) && i < |rows| && more == breaks + report
    requires moved == positions + if NeedsAllPlaces(rows[i].trade) then [] else [i]
    requires if NeedsAllPlaces(rows[i].trade) then report == []
             else |report| == 1 && IsMismatch(s, rows, i, report[0])
    ensures Lists(s, rows, more, moved)
  {
  }

  lemma {:induction false} ReportLists(h: Digest, labels: seq<Label>, b: Text, rows: seq<Row>, s: Scheme, n: nat,
                                       breaks: seq<V.Break>, positions: seq<nat>)
    requires HexDigest(h) && rows == Chain(h, labels, b) && s == Canonically(h) && n <= |rows|
    requires CollisionFree(s, Items(rows) + RawItems(rows))
    requires breaks == V.Report(s, RawItems(rows), n) && positions == ShortRows(rows, n)
    ensures Lists(s, rows, breaks, positions)
  {
    if n > 0 {
      var before, shorter := V.Report(s, RawItems(rows), n - 1), ShortRows(rows, n - 1);
      ReportLists(h, labels, b, rows, s, n - 1, before, shorter);
      RawVerdict(h, labels, b, n - 1);
      ListsOneMore(s, rows, before, shorter, V.ReportAt(s, RawItems(rows), n - 1), n - 1, breaks, positions);
    }
  }

  lemma RawReadable(h: Digest, rows: seq<Row>)
    ensures V.Readable(Canonically(h), RawItems(rows))
  {
    forall i | 0 <= i < |rows| ensures Canonically(h).serialize(RawItems(rows)[i].record).Ok? {
      RecordSerializable(RawTrade(rows[i].trade));
      assert RawItems(rows)[i] == Item(RawTrade(rows[i].trade));
      CanonicallySerializes(h, Record(RawTrade(rows[i].trade)));
    }
  }

  lemma CanonicallySerializes(h: Digest, v: Value)
    ensures Canonically(h).serialize(v) == Canon(v)
  {
  }

  /** The worker verifies what was recorded, reading the raw column text: it does not throw, and it
      reports a hash mismatch on exactly the rows whose quantity or price does not need all four
      decimals, in order, and nothing else. */
  method RawMismatches(h: Digest, labels: seq<Label>, b: Text) returns (r: Result<seq<V.Break>>)
    requires HexDigest(h)
    requires var chain := Chain(h, labels, b); CollisionFree(Canonically(h), Items(chain) + RawItems(chain))
    ensures var chain := Chain(h, labels, b);
            r.Ok? && Lists(Canonically(h), chain, r.value, ShortRows(chain, |chain|))
  {
    var chain := Chain(h, labels, b);
    forall i | 0 <= i < |chain| ensures IsHex64(RawItems(chain)[i].prevHash) {
      RawVerdict(h, labels, b, i);
    }
    RawReadable(h, chain);
    ReportLists(h, labels, b, chain, Canonically(h), |chain|, V.Report(Canonically(h), RawItems(chain), |chain|),
                ShortRows(chain, |chain|));
    r := V.RunForBroker(Canonically(h), RawItems(chain));
  }

  // ----- A run in which it reports an intact chain -----

  /** A digest that tells one payload from all others. */
  function Marking(p: Utf8.Bytes): Digest {
    b => if b == p then Repeat(0x61, 64) else Repeat(0x62, 64)
  }

  lemma MarkingFits(p: Utf8.Bytes)
    ensures HexDigest(Marking(p))
  {
    HexDigitAt(Repeat(0x61, 64));
    HexDigitAt(Repeat(0x62, 64));
  }

  /** It does not collide on items with that payload and items with one other. */
  lemma MarkingFree(p: Utf8.Bytes, x: ChainItem, y: ChainItem)
    requires Hashable(Canonically(Marking(p)), x) ==> ItemPayload(Canonically(Marking(p)), x) == p
    ensures CollisionFree(Canonically(Marking(p)), [x] + [y])
  {
    assert Repeat(0x61, 64)[0] == 0x61 && Repeat(0x62, 64)[0] == 0x62 && GENESIS_HASH[0] == ZERO;
  }

  lemma ColumnUnits(n: int)
    ensures N.Units(N.OfUnits(n)) == n
  {
    Decimals.MakeAt(n < 0, Money.Abs(n), N.PLACES);
  }

  lemma OneFits()
    ensures N.Fits(N.OfUnits(10000))
  {
    ColumnUnits(10000);
    Money.PrintLength(10000, 20);
    Digits.Pow10Monotone(5, 20);
  }

  lemma OneShort()
    ensures N.OfUnits(10000).scale == 0
  {
    assert N.OfUnits(10000) == Decimals.Make(false, 10000, 4) == Decimals.Make(false, 1000, 3);
    assert Decimals.Make(false, 1000, 3) == Decimals.Make(false, 10, 1) == Decimals.Make(false, 1, 0);
  }

  lemma FillRecorded(s: Scheme, f: Fill)
    requires s == Canonically(s.digest)
    requires f.quantity == N.UnitsText(10000) && f.price == N.UnitsText(10000)
    ensures Recorded(s, f, GENESIS_HASH).Ok? && !NeedsAllPlaces(Recorded(s, f, GENESIS_HASH).value)
  {
    N.ColumnReads(10000);
    OneFits();
    OneShort();
    GenesisHex();
    var one := M.Print(N.OfUnits(10000));
    RecordSerializable(Trade(f.tradeId, f.orderId, f.brokerId, f.symbol, f.side, one, one, f.executedAt, GENESIS_HASH, []));
    RecordedTexts(s, f, GENESIS_HASH);
  }

  function RecordOne(f: Fill): seq<Label> {
    [Begin(0, f)] + [Insert(0)] + [Commit(0)]
  }

  lemma RunOne(s: Scheme, f: Fill)
    requires Recorded(s, f, GENESIS_HASH).Ok?
    ensures Run(s, RecordOne(f)).rows == [Row(0, Recorded(s, f, GENESIS_HASH).value)]
  {
    var l := RecordOne(f);
    assert l[..2][..1] == l[..1] && l[..1][..0] == [] && l[..0] == [];
    assert Run(s, l[..1]) == Step(s, INITIAL, l[0]);
    assert Run(s, l[..2]) == Step(s, Run(s, l[..1]), l[1]);
    assert l[..3] == l;
    TradeLog.AloneIsSteps(s, INITIAL, 0, f);
  }

  lemma ChainOfOne(h: Digest, f: Fill, t: Trade)
    requires Recorded(Canonically(h), f, GENESIS_HASH) == Ok(t)
    ensures Chain(h, RecordOne(f), f.brokerId) == [Row(0, t)]
  {
    RunOne(Canonically(h), f);
    RecordedTexts(Canonically(h), f, GENESIS_HASH);
    OfBrokerSnoc([], Row(0, t), f.brokerId);
  }

  /** The payload of the fill's row in an empty table; no digest enters it. */
  function FirstPayload(f: Fill): Utf8.Bytes {
    var one := M.Print(N.OfUnits(10000));
    var t := Trade(f.tradeId, f.orderId, f.brokerId, f.symbol, f.side, one, one, f.executedAt, GENESIS_HASH, []);
    if Canon(Record(t)).Ok? then Utf8.Encode(GENESIS_HASH + [BAR] + Canon(Record(t)).value) else []
  }

  lemma FirstPayloadOf(h: Digest, f: Fill)
    requires f.quantity == N.UnitsText(10000) && f.price == N.UnitsText(10000)
    requires Recorded(Canonically(h), f, GENESIS_HASH).Ok?
    ensures var x := Item(Recorded(Canonically(h), f, GENESIS_HASH).value);
            Hashable(Canonically(h), x) ==> ItemPayload(Canonically(h), x) == FirstPayload(f)
  {
    N.ColumnReads(10000);
  }

  lemma OneRow(t: Trade, chain: seq<Row>)
    requires chain == [Row(0, t)] && !NeedsAllPlaces(t)
    ensures Items(chain) + RawItems(chain) == [Item(t)] + [Item(RawTrade(t))] && ShortRows(chain, 1) == [0]
  {
    assert ShortRows(chain, 0) == [] && ShortRows(chain, 1) == [] + [0];
  }

  lemma MarkedRun(f: Fill, h: Digest)
    requires f.quantity == N.UnitsText(10000) && f.price == N.UnitsText(10000) && h == Marking(FirstPayload(f))
    ensures var chain := Chain(h, RecordOne(f), f.brokerId);
            && CollisionFree(Canonically(h), Items(chain) + RawItems(chain))
            && |chain| == 1 && ShortRows(chain, 1) == [0]
  {
    FillRecorded(Canonically(h), f);
    var t := Recorded(Canonically(h), f, GENESIS_HASH).value;
    ChainOfOne(h, f, t);
    FirstPayloadOf(h, f);
    MarkingFree(FirstPayload(f), Item(t), Item(RawTrade(t)));
    OneRow(t, [Row(0, t)]);
  }

  /** A run in which an intact chain is reported: one fill of quantity and price 1.0000, as the
      columns give them, is recorded, and reading its row back as column text gives a mismatch. */
  lemma MismatchOccurs(f: Fill) returns (h: Digest)
    requires f.quantity == N.UnitsText(10000) && f.price == N.UnitsText(10000)
    ensures ShortFill(f) && HexDigest(h)
    ensures var chain := Chain(h, RecordOne(f), f.brokerId);
            && CollisionFree(Canonically(h), Items(chain) + RawItems(chain))
            && |chain| == 1 && ShortRows(chain, 1) == [0]
  {
    h := Marking(FirstPayload(f));
    OrderFillsAreShort(f, 10000, 10000);
    MarkingFits(FirstPayload(f));
    MarkedRun(f, h);
  }
}
