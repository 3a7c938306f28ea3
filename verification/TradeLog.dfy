/** The two recorders as one process runs them undisturbed: the order processor's `recordFill` and
    the API's `recordTrade`, which also itemises charges. `AloneIsSteps` ties them to the steps of
    the concurrent recorders. */
module TradeLog {
  import opened Texts
  import opened Canonical
  import opened HashChain
  import opened Trades
  import opened Recorder
  import opened PendingActions
  import Charges
  import ColumnUnits
  import Digits
  import M = MoneyText
  import Money
  import N = NumericColumns

  function FillOf(f: Fill, segment: Charges.Segment, day: int): Charges.Fill {
    Charges.Fill(f.tradeId, f.side, f.quantity, f.price, day, segment)
  }

  /** Every line's amount fits its `numeric(20,4)` column; the insert of the lines fails otherwise. */
  predicate LinesFit(lines: seq<Charges.Line>) {
    forall l | l in lines :: N.Fits(Charges.AmountOf(l))
  }

  lemma ZeroFits()
    ensures N.Fits(Charges.ZERO_AMOUNT)
  {
    ColumnUnits.KeptIs(Charges.ZERO_AMOUNT);
    assert Digits.Pow10(0) == 1;
  }

  /** That is, its units of 0.0001 are below 10^20 on either side of zero. */
  lemma LinesFitMeans(lines: seq<Charges.Line>)
    ensures LinesFit(lines)
            <==> forall l | l in lines :: M.Parse(l.amount).Ok? ==>
                   0 - ColumnUnits.LIMIT < N.Units(M.Parse(l.amount).value) < ColumnUnits.LIMIT
  {
    ZeroFits();
    forall l | l in lines
      ensures N.Fits(Charges.AmountOf(l))
              <==> M.Parse(l.amount).Ok? ==>
                     0 - ColumnUnits.LIMIT < N.Units(M.Parse(l.amount).value) < ColumnUnits.LIMIT
    {
      if M.Parse(l.amount).Ok? { ColumnUnits.TwentyDigits(Money.Abs(N.Units(M.Parse(l.amount).value))); }
    }
  }

  class TradeStore {
    var rows: seq<Row>
    var nextId: nat
    var charges: seq<Charges.Line>

    /** Every broker's rows are one growing, intact chain. */
    ghost predicate Valid(s: Scheme)
      reads this
    {
      Chains(s, rows) && AllBelow(rows, nextId)
    }

    constructor (s: Scheme)
      ensures Valid(s) && rows == [] && charges == []
    {
      rows, nextId, charges := [], 0, [];
    }

    method GetLastHash(brokerId: Text) returns (hash: Option<Text>)
      ensures hash.None? <==> forall r | r in rows :: r.trade.brokerId != brokerId
      ensures hash.Some? ==> exists r | r in rows ::
                r.trade.hash == hash.value && r.trade.brokerId == brokerId
                && forall x | x in rows && x.trade.brokerId == brokerId :: x.id <= r.id
      ensures LastHash(rows, brokerId) == if hash.Some? then hash.value else GENESIS_HASH
    {
      var mine := OfBroker(rows, brokerId);
      forall r ensures r in mine <==> r in rows && r.trade.brokerId == brokerId {
        OfBrokerMember(rows, brokerId, r);
      }
      if mine == [] {
        forall r | r in rows ensures r.trade.brokerId != brokerId {
          assert r !in mine;
        }
        return None;
      }
      LatestGreatest(mine);
      return Some(Latest(mine).trade.hash);
    }

    /** The insert, which fails if the hash or the trade id is already there. */
    method Insert(t: Trade) returns (ok: bool)
      modifies this`rows, this`nextId
      ensures ok == Unique(old(rows), t)
      ensures ok <==> forall r | r in old(rows) :: r.trade.hash != t.hash && r.trade.tradeId != t.tradeId
      ensures rows == if ok then old(rows) + [Row(old(nextId), t)] else old(rows)
      ensures nextId == old(nextId) + 1
    {
      var id := nextId;
      nextId := nextId + 1;
      ok := Unique(rows, t);
      if ok {
        rows := rows + [Row(id, t)];
      }
    }

    /** A recorded trade continues its broker's chain; a failure leaves the rows as they were. */
    method RecordFill(s: Scheme, f: Fill) returns (r: Result<Trade>)
      requires Valid(s)
      modifies this`rows, this`nextId
      ensures Valid(s)
      ensures r.Ok? ==> r == Recorded(s, f, LastHash(old(rows), f.brokerId)) && Unique(old(rows), r.value)
      ensures r.Ok? ==> rows == old(rows) + [Row(old(nextId), r.value)]
      ensures r.TypeError? ==> rows == old(rows)
      ensures r.TypeError? ==> var t := Recorded(s, f, LastHash(rows, f.brokerId)); t.Ok? ==> !Unique(rows, t.value)
    {
      var last := GetLastHash(f.brokerId);
      var t := Recorded(s, f, if last.Some? then last.value else GENESIS_HASH);
      if t.TypeError? {
        return TypeError;
      }
      ghost var tx := Tx.Inserted(f, rows, Row(nextId, t.value));
      RecordedLinked(s, f, LastHash(rows, f.brokerId));
      if Unique(rows, t.value) {
        CommitKeepsChains(s, State(rows, nextId + 1, map[]), tx);
      }
      var ok := Insert(t.value);
      return if ok then t else TypeError;
    }

    /** The charge lines of a fill, all of them or none. */
    method RecordCharges(rates: seq<Charges.ChargeRate>, fill: Charges.Fill) returns (ok: bool)
      modifies this`charges
      ensures var lines := Charges.LinesFor(rates, fill);
              && ok == (lines.Ok? && LinesFit(lines.value))
              && charges == if ok then old(charges) + lines.value else old(charges)
    {
      var lines := Charges.ComputeForFill(rates, fill);
      ok := lines.Ok? && LinesFit(lines.value);
      if ok {
        charges := charges + lines.value;
      }
    }

    /** The API's recorder: the same, and the fill's charge lines in the same transaction. */
    method RecordTrade(s: Scheme, f: Fill, rates: seq<Charges.ChargeRate>, segment: Charges.Segment, day: int)
      returns (r: Result<Trade>)
      requires Valid(s)
      modifies this
      ensures Valid(s)
      ensures r.Ok? ==> r == Recorded(s, f, LastHash(old(rows), f.brokerId))
      ensures r.Ok? ==> rows == old(rows) + [Row(old(nextId), r.value)]
      ensures r.Ok? ==> var fill := Charges.Fill(f.tradeId, f.side, f.quantity, f.price, day, segment);
                        var lines := Charges.LinesFor(rates, fill);
                        lines.Ok? && LinesFit(lines.value) && charges == old(charges) + lines.value
      ensures r.TypeError? ==> rows == old(rows) && charges == old(charges)
      ensures var t := Recorded(s, f, LastHash(old(rows), f.brokerId));
              var lines := Charges.LinesFor(rates, FillOf(f, segment, day));
              r.Ok? <==> t.Ok? && Unique(old(rows), t.value) && lines.Ok? && LinesFit(lines.value)
    {
      var before := rows;
      r := RecordFill(s, f);
      if r.TypeError? {
        return;
      }
      var ok := RecordCharges(rates, FillOf(f, segment, day));
      if !ok {
        rows := before;
        return TypeError;
      }
    }
  }

  lemma {:induction false} LatestGreatest(rows: seq<Row>)
    requires rows != []
    ensures Latest(rows) in rows && forall x | x in rows :: x.id <= Latest(rows).id
  {
    var n := |rows| - 1;
    if n > 0 {
      LatestGreatest(rows[..n]);
      assert rows == rows[..n] + [rows[n]];
    }
  }

  /** Begin, insert and commit, taken one after the other, leave the rows that `recordFill` does. */
  lemma AloneIsSteps(s: Scheme, st: State, tx: nat, f: Fill)
    requires tx !in st.txs
    ensures var after := Step(s, Step(s, Step(s, st, Begin(tx, f)), Insert(tx)), Commit(tx));
            var t := Recorded(s, f, LastHash(st.rows, f.brokerId));
            after.rows == if t.Ok? && Unique(st.rows, t.value) then st.rows + [Row(st.nextId, t.value)] else st.rows
  {
    var begun := Step(s, st, Begin(tx, f));
    assert begun.txs[tx] == Reading(f, st.rows);
    var inserted := Step(s, begun, Insert(tx));
    assert inserted.rows == st.rows;
  }
}
