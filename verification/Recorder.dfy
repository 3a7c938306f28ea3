/** The recorders that extend the chains: every transaction reads its broker's last hash in a
    snapshot, inserts one row, and commits or rolls back. Any number of them run concurrently,
    for any brokers, in any interleaving. */
module Recorder {
  import opened Texts
  import opened Canonical
  import opened HashChain
  import opened Trades
  import M = MoneyText
  import N = NumericColumns

  /** What is to be recorded: an order's fill, or the argument of `recordTrade`. */
  datatype Fill = Fill(
    tradeId: Text,
    orderId: Text,
    brokerId: Text,
    symbol: Text,
    side: Side,
    quantity: Text,
    price: Text,
    executedAt: Text)

  /** A row of the table; `trade` holds the quantity and price texts that were sent. */
  datatype Row = Row(id: nat, trade: Trade)

  datatype Tx =
    | Reading(fill: Fill, snapshot: seq<Row>)
    | Inserted(fill: Fill, snapshot: seq<Row>, row: Row)

  /** Committed rows in commit order, the identity counter, and the open transactions. */
  datatype State = State(rows: seq<Row>, nextId: nat, txs: map<nat, Tx>)

  const INITIAL: State := State([], 0, map[])

  // ----- Queries -----

  /** `WHERE broker_id = b` */
  function OfBroker(rows: seq<Row>, b: Text): seq<Row> {
    if rows == [] then []
    else
      var n := |rows| - 1;
      OfBroker(rows[..n], b) + if rows[n].trade.brokerId == b then [rows[n]] else []
  }

  /** `ORDER BY id DESC LIMIT 1` */
  function Latest(rows: seq<Row>): Row
    requires rows != []
  {
    var n := |rows| - 1;
    if n == 0 then rows[0]
    else
      var before := Latest(rows[..n]);
      if rows[n].id > before.id then rows[n] else before
  }

  /** `getLastHash(...) ?? GENESIS_HASH` */
  function LastHash(rows: seq<Row>, b: Text): Text {
    var mine := OfBroker(rows, b);
    if mine == [] then GENESIS_HASH else Latest(mine).trade.hash
  }

  function InsertById(r: Row, rows: seq<Row>): seq<Row> {
    if rows == [] || r.id <= rows[0].id then [r] + rows else [rows[0]] + InsertById(r, rows[1..])
  }

  /** `ORDER BY id ASC` */
  function Ascending(rows: seq<Row>): seq<Row> {
    if rows == [] then [] else InsertById(rows[0], Ascending(rows[1..]))
  }

  // ----- Steps -----

  /** The row's values, or the error of a quantity or price that is no decimal string or does
      not fit its column. */
  function Recorded(s: Scheme, f: Fill, prevHash: Text): Result<Trade> {
    var q, p := M.Parse(f.quantity), M.Parse(f.price);
    if q.TypeError? || p.TypeError? then TypeError
    else
      var t := Trade(f.tradeId, f.orderId, f.brokerId, f.symbol, f.side,
                     M.Print(q.value), M.Print(p.value), f.executedAt, prevHash, []);
      var hash := ComputeHash(s, Record(t), prevHash);
      if hash.TypeError? || !N.Fits(q.value) || !N.Fits(p.value) then TypeError
      else Ok(t.(hash := hash.value))
  }

  datatype Label =
    | Begin(tx: nat, fill: Fill)
    | Insert(tx: nat)
    | Commit(tx: nat)
    | Rollback(tx: nat)

  /** No other row of the table has the hash or the trade id. */
  predicate Unique(rows: seq<Row>, t: Trade) {
    forall r | r in rows :: r.trade.hash != t.hash && r.trade.tradeId != t.tradeId
  }

  /** One step of one transaction. A step that is not possible changes nothing. A recorder commits
      only if its broker's rows are those of its snapshot; `Serializability` derives this. */
  function Step(s: Scheme, st: State, l: Label): State {
    match l
    case Begin(tx, fill) =>
      if tx in st.txs then st else st.(txs := st.txs[tx := Reading(fill, st.rows)])
    case Insert(tx) =>
      if tx !in st.txs || !st.txs[tx].Reading? then st
      else
        var Reading(fill, snapshot) := st.txs[tx];
        var t := Recorded(s, fill, LastHash(snapshot, fill.brokerId));
        if t.TypeError? then st.(txs := st.txs - {tx})
        else
          var row := Row(st.nextId, t.value);
          st.(nextId := st.nextId + 1, txs := st.txs[tx := Inserted(fill, snapshot, row)])
    case Commit(tx) =>
      if tx !in st.txs || !st.txs[tx].Inserted? then st
      else
        var Inserted(fill, snapshot, row) := st.txs[tx];
        var b := fill.brokerId;
        if OfBroker(st.rows, b) == OfBroker(snapshot, b) && Unique(st.rows, row.trade) then
          st.(rows := st.rows + [row], txs := st.txs - {tx})
        else st.(txs := st.txs - {tx})
    case Rollback(tx) => st.(txs := st.txs - {tx})
  }

  function Run(s: Scheme, labels: seq<Label>): State {
    if labels == [] then INITIAL
    else Step(s, Run(s, labels[..|labels| - 1]), labels[|labels| - 1])
  }

  // ----- What every step keeps -----

  function Items(rows: seq<Row>): seq<ChainItem> {
    seq(|rows|, i requires 0 <= i < |rows| => Item(rows[i].trade))
  }

  predicate Increasing(rows: seq<Row>) {
    forall i, j | 0 <= i < j < |rows| :: rows[i].id < rows[j].id
  }

  predicate DistinctHashes(rows: seq<Row>) {
    forall i, j | 0 <= i < j < |rows| :: rows[i].trade.hash != rows[j].trade.hash
  }

  /** One broker's rows, in commit order. */
  predicate ChainOk(s: Scheme, rows: seq<Row>) {
    Increasing(rows) && DistinctHashes(rows) && Intact(s, Items(rows))
  }

  predicate AllBelow(rows: seq<Row>, id: nat) {
    forall r | r in rows :: r.id < id
  }

  /** The row carries its own hash and names the tail its transaction saw. */
  predicate Linked(s: Scheme, t: Trade, b: Text, last: Text) {
    t.brokerId == b && t.prevHash == last && ComputeHash(s, Record(t), last) == Ok(t.hash)
  }

  predicate TxOk(s: Scheme, st: State, tx: Tx) {
    && tx.snapshot <= st.rows
    && (tx.Inserted? ==>
          && tx.row.id < st.nextId && AllBelow(tx.snapshot, tx.row.id)
          && Linked(s, tx.row.trade, tx.fill.brokerId, LastHash(tx.snapshot, tx.fill.brokerId)))
  }

  ghost predicate Chains(s: Scheme, rows: seq<Row>) {
    forall b :: ChainOk(s, OfBroker(rows, b))
  }

  ghost predicate Inv(s: Scheme, st: State) {
    && Chains(s, st.rows)
    && AllBelow(st.rows, st.nextId)
    && forall tx | tx in st.txs :: TxOk(s, st, st.txs[tx])
  }

  lemma {:induction false} OfBrokerMember(rows: seq<Row>, b: Text, r: Row)
    ensures r in OfBroker(rows, b) <==> r in rows && r.trade.brokerId == b
  {
    if rows != [] {
      var n := |rows| - 1;
      OfBrokerMember(rows[..n], b, r);
      assert rows == rows[..n] + [rows[n]];
    }
  }

  lemma OfBrokerSnoc(rows: seq<Row>, r: Row, b: Text)
    ensures OfBroker(rows + [r], b) == if r.trade.brokerId == b then OfBroker(rows, b) + [r] else OfBroker(rows, b)
  {
    assert (rows + [r])[..|rows|] == rows;
  }

  lemma {:induction false} LatestLast(rows: seq<Row>)
    requires rows != [] && Increasing(rows)
    ensures Latest(rows) == rows[|rows| - 1]
  {
    if |rows| > 1 {
      LatestLast(rows[..|rows| - 1]);
    }
  }

  /** In a growing chain the row with the greatest id is the tail. */
  lemma LastHashIsTail(s: Scheme, rows: seq<Row>, b: Text)
    requires ChainOk(s, OfBroker(rows, b))
    ensures LastHash(rows, b) == Tail(Items(OfBroker(rows, b)))
  {
    if OfBroker(rows, b) != [] {
      LatestLast(OfBroker(rows, b));
    }
  }

  lemma RecordedLinked(s: Scheme, f: Fill, prevHash: Text)
    requires Recorded(s, f, prevHash).Ok?
    ensures Linked(s, Recorded(s, f, prevHash).value, f.brokerId, prevHash)
  {
  }

  lemma ChainGrows(s: Scheme, chain: seq<Row>, r: Row, b: Text)
    requires ChainOk(s, chain) && AllBelow(chain, r.id) && Unique(chain, r.trade)
    requires Linked(s, r.trade, b, Tail(Items(chain)))
    ensures ChainOk(s, chain + [r])
  {
    Extend(s, Items(chain), Item(r.trade));
    assert Items(chain + [r]) == Items(chain) + [Item(r.trade)];
  }

  lemma OwnChainGrows(s: Scheme, rows: seq<Row>, snapshot: seq<Row>, r: Row, b: Text)
    requires ChainOk(s, OfBroker(rows, b)) && OfBroker(rows, b) == OfBroker(snapshot, b)
    requires AllBelow(snapshot, r.id) && Unique(rows, r.trade)
    requires Linked(s, r.trade, b, LastHash(snapshot, b))
    ensures ChainOk(s, OfBroker(rows, b) + [r])
  {
    LastHashIsTail(s, snapshot, b);
    BrokerRows(rows, snapshot, b, r);
    ChainGrows(s, OfBroker(rows, b), r, b);
  }

  lemma CommitKeepsChains(s: Scheme, st: State, tx: Tx)
    requires Chains(s, st.rows) && TxOk(s, st, tx) && tx.Inserted?
    requires OfBroker(st.rows, tx.fill.brokerId) == OfBroker(tx.snapshot, tx.fill.brokerId)
    requires Unique(st.rows, tx.row.trade)
    ensures Chains(s, st.rows + [tx.row])
  {
    forall b ensures ChainOk(s, OfBroker(st.rows + [tx.row], b)) {
      OfBrokerSnoc(st.rows, tx.row, b);
      assert ChainOk(s, OfBroker(st.rows, b));
      if b == tx.fill.brokerId {
        OwnChainGrows(s, st.rows, tx.snapshot, tx.row, b);
      }
    }
  }

  lemma BrokerRows(rows: seq<Row>, snapshot: seq<Row>, b: Text, r: Row)
    requires OfBroker(rows, b) == OfBroker(snapshot, b)
    requires AllBelow(snapshot, r.id) && Unique(rows, r.trade)
    ensures AllBelow(OfBroker(rows, b), r.id) && Unique(OfBroker(rows, b), r.trade)
  {
    forall x | x in OfBroker(rows, b) ensures x in rows && x in snapshot {
      OfBrokerMember(rows, b, x);
      OfBrokerMember(snapshot, b, x);
    }
  }

  lemma TxStays(s: Scheme, st: State, next: State, tx: Tx)
    requires TxOk(s, st, tx) && st.rows <= next.rows && st.nextId <= next.nextId
    ensures TxOk(s, next, tx)
  {
  }

  lemma InsertKeepsInv(s: Scheme, st: State, tx: nat)
    requires Inv(s, st)
    ensures Inv(s, Step(s, st, Insert(tx)))
  {
    var next := Step(s, st, Insert(tx));
    assert next.rows == st.rows;
    forall x | x in next.txs ensures TxOk(s, next, next.txs[x]) {
      var was := st.txs[x];
      if next.txs[x] == was {
        TxStays(s, st, next, was);
      } else {
        RecordedLinked(s, was.fill, LastHash(was.snapshot, was.fill.brokerId));
      }
    }
  }

  lemma CommitKeepsInv(s: Scheme, st: State, tx: nat)
    requires Inv(s, st)
    ensures Inv(s, Step(s, st, Commit(tx)))
    ensures st.rows <= Step(s, st, Commit(tx)).rows
  {
    var next := Step(s, st, Commit(tx));
    if next.rows != st.rows {
      CommitKeepsChains(s, st, st.txs[tx]);
    }
    forall x | x in next.txs ensures TxOk(s, next, next.txs[x]) {
      TxStays(s, st, next, st.txs[x]);
    }
  }

  lemma StepKeepsInv(s: Scheme, st: State, l: Label)
    requires Inv(s, st)
    ensures Inv(s, Step(s, st, l))
    ensures st.rows <= Step(s, st, l).rows
  {
    match l
    case Begin(tx, fill) =>
      var next := Step(s, st, l);
      forall x | x in next.txs ensures TxOk(s, next, next.txs[x]) {
        assert x in st.txs ==> TxOk(s, st, st.txs[x]);
      }
    case Insert(tx) => InsertKeepsInv(s, st, tx);
    case Commit(tx) => CommitKeepsInv(s, st, tx);
    case Rollback(tx) =>
  }

  lemma {:induction false} RunKeepsInv(s: Scheme, labels: seq<Label>)
    ensures Inv(s, Run(s, labels))
  {
    if labels != [] {
      RunKeepsInv(s, labels[..|labels| - 1]);
      StepKeepsInv(s, Run(s, labels[..|labels| - 1]), labels[|labels| - 1]);
    }
  }

  // ----- Main results -----

  lemma InsertFirst(r: Row, rows: seq<Row>)
    requires Increasing([r] + rows)
    ensures InsertById(r, rows) == [r] + rows
  {
    assert rows != [] ==> ([r] + rows)[0].id < ([r] + rows)[1].id;
  }

  lemma {:induction false} AscendingSame(rows: seq<Row>)
    requires Increasing(rows)
    ensures Ascending(rows) == rows
  {
    if rows != [] {
      AscendingSame(rows[1..]);
      assert rows == [rows[0]] + rows[1..];
      InsertFirst(rows[0], rows[1..]);
    }
  }

  /** In every run, each broker's rows read in id order are one intact chain from genesis, in the
      order they were committed, and `getLastHash` returns its tail. */
  lemma OneChain(s: Scheme, labels: seq<Label>, b: Text)
    ensures var rows := Run(s, labels).rows;
            var chain := OfBroker(rows, b);
            && Ascending(chain) == chain && Intact(s, Items(chain))
            && LastHash(rows, b) == Tail(Items(chain))
  {
    RunKeepsInv(s, labels);
    var rows := Run(s, labels).rows;
    assert ChainOk(s, OfBroker(rows, b));
    AscendingSame(OfBroker(rows, b));
    LastHashIsTail(s, rows, b);
  }

  /** No fork: no two rows of a broker name the same predecessor, unless some row's hash is the
      genesis constant itself. */
  lemma NoFork(s: Scheme, labels: seq<Label>, b: Text, i: nat, j: nat)
    requires var chain := OfBroker(Run(s, labels).rows, b);
             && i < |chain| && j < |chain| && chain[i].trade.prevHash == chain[j].trade.prevHash
             && forall r | r in chain :: r.trade.hash != GENESIS_HASH
    ensures i == j
  {
    RunKeepsInv(s, labels);
    var chain := OfBroker(Run(s, labels).rows, b);
    assert ChainOk(s, chain);
    assert Good(s, Items(chain), i) && Good(s, Items(chain), j);
    assert i > 0 ==> chain[i - 1] in chain;
    assert j > 0 ==> chain[j - 1] in chain;
  }

  lemma {:induction false} IncreasingById(rows: seq<Row>, i: nat, j: nat)
    requires i < j < |rows| && rows[i].trade.brokerId == rows[j].trade.brokerId
    requires Increasing(OfBroker(rows, rows[j].trade.brokerId))
    ensures rows[i].id < rows[j].id
  {
    var n, b := |rows| - 1, rows[j].trade.brokerId;
    var before := OfBroker(rows[..n], b);
    assert before <= OfBroker(rows, b);
    assert forall x, y | 0 <= x < y < |before| ::
        OfBroker(rows, b)[x] == before[x] && OfBroker(rows, b)[y] == before[y] && before[x].id < before[y].id;
    if j < n {
      IncreasingById(rows[..n], i, j);
    } else {
      assert rows[i] == rows[..n][i];
      OfBrokerMember(rows[..n], b, rows[i]);
      var x :| 0 <= x < |before| && before[x] == rows[i];
      assert OfBroker(rows, b)[x] == rows[i] && OfBroker(rows, b)[|before|] == rows[n];
    }
  }

  /** Each broker's rows are committed in the order of their ids, although ids are drawn before
      the commit and by all brokers together. */
  lemma CommittedInOrder(s: Scheme, labels: seq<Label>, i: nat, j: nat)
    requires var rows := Run(s, labels).rows; i < j < |rows| && rows[i].trade.brokerId == rows[j].trade.brokerId
    ensures Run(s, labels).rows[i].id < Run(s, labels).rows[j].id
  {
    RunKeepsInv(s, labels);
    var rows := Run(s, labels).rows;
    assert ChainOk(s, OfBroker(rows, rows[j].trade.brokerId));
    IncreasingById(rows, i, j);
  }

  /** Committed rows stay: a longer run has them in front, unchanged. */
  lemma {:induction false} RowsStay(s: Scheme, labels: seq<Label>, more: seq<Label>)
    ensures Run(s, labels).rows <= Run(s, labels + more).rows
  {
    if more == [] {
      assert labels + more == labels;
    } else {
      var n := |more| - 1;
      RowsStay(s, labels, more[..n]);
      RunKeepsInv(s, labels + more[..n]);
      StepKeepsInv(s, Run(s, labels + more[..n]), more[n]);
      assert (labels + more)[..|labels| + n] == labels + more[..n];
    }
  }

  // ----- Trade ids and hashes -----

  predicate AllUnique(rows: seq<Row>) {
    forall i, j | 0 <= i < j < |rows| ::
      rows[i].trade.hash != rows[j].trade.hash && rows[i].trade.tradeId != rows[j].trade.tradeId
  }

  /** In every interleaving, over all brokers, no two rows share their hash or their trade id. */
  lemma {:induction false} RowsUnique(s: Scheme, labels: seq<Label>)
    ensures AllUnique(Run(s, labels).rows)
  {
    if labels != [] {
      RowsUnique(s, labels[..|labels| - 1]);
      var st, l := Run(s, labels[..|labels| - 1]), labels[|labels| - 1];
      var after := Step(s, st, l).rows;
      if |after| > |st.rows| {
        forall r | r in st.rows
          ensures r.trade.hash != after[|st.rows|].trade.hash && r.trade.tradeId != after[|st.rows|].trade.tradeId
        {
        }
      }
    }
  }
}
