/** The order processor's job: load the order, record its fill, mark it filled, in separate
    transactions, so that a job can be delivered again in between. */
module Orders {
  import opened Texts
  import opened PendingActions
  import Decimals
  import M = MoneyText

  datatype OrderStatus = PENDING | ACCEPTED | PARTIALLY_FILLED | FILLED | REJECTED | CANCELLED

  datatype Order = Order(limitOrStop: bool, price: Option<Text>, status: OrderStatus)

  datatype Trade = Trade(orderId: Text, price: Text)

  /** A job between two of its transactions. */
  datatype Job = Loaded(orderId: Text, price: Text) | Recorded(orderId: Text)

  datatype State = State(orders: map<Text, Order>, trades: seq<Trade>, jobs: map<nat, Job>)

  const INITIAL: State := State(map[], [], map[])

  const REFERENCE_PRICE_FALLBACK: Text := Ascii("100")

  function FillPrice(o: Order): Text {
    var reference := if o.price.Some? then o.price.value else REFERENCE_PRICE_FALLBACK;
    if !o.limitOrStop then reference else if o.price.Some? then o.price.value else reference
  }

  datatype Label =
    | Submit(orderId: Text, order: Order)
    | SetStatus(orderId: Text, status: OrderStatus)
    | Deliver(job: nat, orderId: Text)
    | RecordFill(job: nat)
    | MarkFilled(job: nat)
    | Die(job: nat)

  /** One transaction. A step that is not possible changes nothing. Only the processor marks orders
      filled. */
  function Step(st: State, l: Label): State {
    match l
    case Submit(id, o) =>
      if id in st.orders then st else st.(orders := st.orders[id := o.(status := OrderStatus.PENDING)])
    case SetStatus(id, status) =>
      if id in st.orders && st.orders[id].status != FILLED && status != FILLED then
        st.(orders := st.orders[id := st.orders[id].(status := status)])
      else st
    case Deliver(job, id) =>
      if job in st.jobs || id !in st.orders then st
      else
        var o := st.orders[id];
        if (o.status != OrderStatus.PENDING && o.status != ACCEPTED) || M.Parse(FillPrice(o)).TypeError? then st
        else st.(jobs := st.jobs[job := Loaded(id, FillPrice(o))])
    case RecordFill(job) =>
      if job in st.jobs && st.jobs[job].Loaded? then
        var Loaded(id, price) := st.jobs[job];
        st.(trades := st.trades + [Trade(id, price)], jobs := st.jobs[job := Recorded(id)])
      else st
    case MarkFilled(job) =>
      if job in st.jobs && st.jobs[job].Recorded? && st.jobs[job].orderId in st.orders then
        var id := st.jobs[job].orderId;
        st.(orders := st.orders[id := st.orders[id].(status := FILLED)], jobs := st.jobs - {job})
      else st
    case Die(job) => st.(jobs := st.jobs - {job})
  }

  function Steps(st: State, labels: seq<Label>): State {
    if labels == [] then st else Step(Steps(st, labels[..|labels| - 1]), labels[|labels| - 1])
  }

  function Run(labels: seq<Label>): State {
    Steps(INITIAL, labels)
  }

  predicate HasTrade(trades: seq<Trade>, id: Text) {
    exists t | t in trades :: t.orderId == id
  }

  predicate Inv(st: State) {
    && (forall id | id in st.orders && st.orders[id].status == FILLED :: HasTrade(st.trades, id))
    && (forall j | j in st.jobs && st.jobs[j].Recorded? :: HasTrade(st.trades, st.jobs[j].orderId))
  }

  lemma TradesStay(trades: seq<Trade>, t: Trade, id: Text)
    requires HasTrade(trades, id)
    ensures HasTrade(trades + [t], id)
  {
    var x :| x in trades && x.orderId == id;
    assert x in trades + [t];
  }

  lemma StepKeepsInv(st: State, l: Label)
    requires Inv(st)
    ensures Inv(Step(st, l))
  {
    var next := Step(st, l);
    if l.RecordFill? && next.trades != st.trades {
      var t := next.trades[|st.trades|];
      assert t in next.trades;
      forall id | HasTrade(st.trades, id) ensures HasTrade(next.trades, id) {
        TradesStay(st.trades, t, id);
      }
    }
  }

  /** In every run, with any number of redeliveries and crashes, a filled order has a trade. */
  lemma {:induction false} FilledHasTrade(labels: seq<Label>)
    ensures Inv(Run(labels))
  {
    if labels != [] {
      FilledHasTrade(labels[..|labels| - 1]);
      StepKeepsInv(Run(labels[..|labels| - 1]), labels[|labels| - 1]);
    }
  }

  // ----- How many trades an order has -----

  function Count(trades: seq<Trade>, id: Text): nat {
    if trades == [] then 0
    else
      var n := |trades| - 1;
      Count(trades[..n], id) + if trades[n].orderId == id then 1 else 0
  }

  lemma CountSnoc(trades: seq<Trade>, t: Trade, id: Text)
    ensures Count(trades + [t], id) == Count(trades, id) + if t.orderId == id then 1 else 0
  {
    assert (trades + [t])[..|trades|] == trades;
  }

  predicate OpenFor(st: State, id: Text) {
    exists j | j in st.jobs :: st.jobs[j].orderId == id
  }

  predicate LoadedFor(st: State, id: Text) {
    exists j | j in st.jobs :: st.jobs[j].orderId == id && st.jobs[j].Loaded?
  }

  predicate RecordedFor(st: State, id: Text) {
    exists j | j in st.jobs :: st.jobs[j] == Recorded(id)
  }

  predicate IsFilled(st: State, id: Text) {
    id in st.orders && st.orders[id].status == FILLED
  }

  /** The processor loads it in no state: it is filled, or its fill price is malformed. */
  predicate Unloadable(st: State, id: Text) {
    id in st.orders && (st.orders[id].status == FILLED || M.Parse(FillPrice(st.orders[id])).TypeError?)
  }

  predicate Settled(st: State, id: Text) {
    Unloadable(st, id) && !LoadedFor(st, id)
  }

  // From a settled order no step leads to another trade.

  lemma SettledStep(st: State, l: Label, id: Text)
    requires Settled(st, id)
    ensures Settled(Step(st, l), id) && Count(Step(st, l).trades, id) == Count(st.trades, id)
  {
    if l.RecordFill? { SettledRecord(st, l.job, id); }
  }

  lemma SettledRecord(st: State, job: nat, id: Text)
    requires Settled(st, id)
    ensures Settled(Step(st, RecordFill(job)), id) && Count(Step(st, RecordFill(job)).trades, id) == Count(st.trades, id)
  {
    if job in st.jobs && st.jobs[job].Loaded? {
      assert st.jobs[job].orderId != id;
      CountSnoc(st.trades, Trade(st.jobs[job].orderId, st.jobs[job].price), id);
      var next := Step(st, RecordFill(job));
      forall j | j in next.jobs ensures !(next.jobs[j].orderId == id && next.jobs[j].Loaded?) {
        if j != job { assert j in st.jobs && next.jobs[j] == st.jobs[j]; }
      }
    }
  }

  lemma {:induction false} SettledSteps(st: State, more: seq<Label>, id: Text)
    requires Settled(st, id)
    ensures Settled(Steps(st, more), id) && Count(Steps(st, more).trades, id) == Count(st.trades, id)
  {
    if more != [] {
      var n := |more| - 1;
      SettledSteps(st, more[..n], id);
      SettledStep(Steps(st, more[..n]), more[n], id);
    }
  }

  // From any other order some steps do.

  lemma OneStep(st: State, l: Label)
    ensures Steps(st, [l]) == Step(st, l)
  {
    assert [l][..0] == [] && Steps(st, []) == st;
  }

  lemma {:induction false} StepsConcat(st: State, a: seq<Label>, b: seq<Label>)
    ensures Steps(st, a + b) == Steps(Steps(st, a), b)
  {
    if b == [] {
      assert a + b == a;
    } else {
      var n := |b| - 1;
      StepsConcat(st, a, b[..n]);
      assert (a + b)[..|a + b| - 1] == a + b[..n];
    }
  }

  lemma StepsSnoc(st: State, labels: seq<Label>, l: Label)
    ensures Steps(st, labels + [l]) == Step(Steps(st, labels), l)
  {
    assert (labels + [l])[..|labels|] == labels;
  }

  lemma LoadedRecords(st: State, job: nat, id: Text)
    requires job in st.jobs && st.jobs[job].Loaded? && st.jobs[job].orderId == id
    ensures Count(Step(st, RecordFill(job)).trades, id) == Count(st.trades, id) + 1
  {
    CountSnoc(st.trades, Trade(id, st.jobs[job].price), id);
  }

  const ONE: Text := M.Print(Decimals.Decimal(false, 1, 0))

  /** Makes sure there is an order, and that it is pending; delivers and records it as a new job. */
  function Redelivery(id: Text): seq<Label> {
    [Submit(id, Order(true, Some(ONE), OrderStatus.PENDING)), SetStatus(id, OrderStatus.PENDING), Die(0), Deliver(0, id)]
  }

  lemma RedeliverySteps(st: State, id: Text)
    ensures var r := Redelivery(id); Steps(st, r) == Step(Step(Step(Step(st, r[0]), r[1]), r[2]), r[3])
  {
    var r := Redelivery(id);
    assert r == [r[0]] + [r[1]] + [r[2]] + [r[3]];
    OneStep(st, r[0]);
    StepsSnoc(st, [r[0]], r[1]);
    StepsSnoc(st, [r[0]] + [r[1]], r[2]);
    StepsSnoc(st, [r[0]] + [r[1]] + [r[2]], r[3]);
  }

  predicate Loadable(st: State, id: Text) {
    && id in st.orders && st.orders[id].status == OrderStatus.PENDING && M.Parse(FillPrice(st.orders[id])).Ok?
  }

  lemma MadeLoadable(st: State, id: Text)
    requires !Unloadable(st, id)
    ensures var r := Redelivery(id); var u := Step(Step(st, r[0]), r[1]); Loadable(u, id) && u.trades == st.trades
  {
    M.ParsePrint(Decimals.Decimal(false, 1, 0));
  }

  lemma LoadableLoads(st: State, id: Text)
    requires Loadable(st, id)
    ensures var u := Step(Step(st, Die(0)), Deliver(0, id));
            u.trades == st.trades && 0 in u.jobs && u.jobs[0] == Loaded(id, FillPrice(st.orders[id]))
  {
  }

  lemma RedeliveryLoads(st: State, id: Text)
    requires !Unloadable(st, id)
    ensures var u := Steps(st, Redelivery(id));
            u.trades == st.trades && 0 in u.jobs && u.jobs[0].Loaded? && u.jobs[0].orderId == id
  {
    var r := Redelivery(id);
    RedeliverySteps(st, id);
    MadeLoadable(st, id);
    LoadableLoads(Step(Step(st, r[0]), r[1]), id);
  }

  /** How an order that is not settled gets another trade. */
  lemma AnotherTrade(st: State, id: Text) returns (more: seq<Label>)
    requires !Settled(st, id)
    ensures Count(Steps(st, more).trades, id) == Count(st.trades, id) + 1
  {
    if LoadedFor(st, id) {
      var j :| j in st.jobs && st.jobs[j].orderId == id && st.jobs[j].Loaded?;
      OneStep(st, RecordFill(j));
      LoadedRecords(st, j, id);
      return [RecordFill(j)];
    }
    RedeliveryLoads(st, id);
    StepsSnoc(st, Redelivery(id), RecordFill(0));
    LoadedRecords(Steps(st, Redelivery(id)), 0, id);
    return Redelivery(id) + [RecordFill(0)];
  }

  /** Exactly when an order's trades are complete: no continuation of a run adds a trade if and only
      if the order is filled or its price is malformed, and no job for it has been loaded without
      having been recorded. */
  lemma TradesComplete(labels: seq<Label>, id: Text)
    ensures (forall more: seq<Label> :: Count(Run(labels + more).trades, id) == Count(Run(labels).trades, id))
            <==> Settled(Run(labels), id)
  {
    var st := Run(labels);
    if Settled(st, id) {
      forall more: seq<Label> ensures Count(Run(labels + more).trades, id) == Count(st.trades, id) {
        StepsConcat(INITIAL, labels, more);
        SettledSteps(st, more, id);
      }
    } else {
      var more := AnotherTrade(st, id);
      StepsConcat(INITIAL, labels, more);
      assert Count(Run(labels + more).trades, id) != Count(Run(labels).trades, id);
    }
  }

  // When an order gets one trade at most.

  /** A delivery of the order is accepted only while no job for it is open, and a job that has
      recorded its trade does not die before it has marked the order. */
  predicate OrderlyStep(st: State, l: Label, id: Text) {
    match l
    case Deliver(_, o) => o == id && Step(st, l) != st ==> !OpenFor(st, id)
    case Die(job) => job in st.jobs ==> st.jobs[job] != Recorded(id)
    case _ => true
  }

  predicate Orderly(labels: seq<Label>, id: Text) {
    labels == []
    || (Orderly(labels[..|labels| - 1], id)
        && OrderlyStep(Run(labels[..|labels| - 1]), labels[|labels| - 1], id))
  }

  predicate OneJob(st: State, id: Text) {
    forall i, j | i in st.jobs && j in st.jobs :: st.jobs[i].orderId == id && st.jobs[j].orderId == id ==> i == j
  }

  predicate Single(st: State, id: Text) {
    && OneJob(st, id)
    && Count(st.trades, id) <= 1
    && (LoadedFor(st, id) ==> Count(st.trades, id) == 0)
    && (Count(st.trades, id) == 1 ==> IsFilled(st, id) || RecordedFor(st, id))
  }

  lemma RecordKeepsSingle(st: State, job: nat, id: Text)
    requires Single(st, id)
    ensures Single(Step(st, RecordFill(job)), id)
  {
    if job in st.jobs && st.jobs[job].Loaded? {
      var Loaded(o, price) := st.jobs[job];
      var next := Step(st, RecordFill(job));
      CountSnoc(st.trades, Trade(o, price), id);
      assert next.jobs[job] == Recorded(o);
      if o != id && RecordedFor(st, id) {
        var j :| j in st.jobs && st.jobs[j] == Recorded(id);
        assert next.jobs[j] == Recorded(id);
      }
    }
  }

  lemma MarkKeepsSingle(st: State, job: nat, id: Text)
    requires Single(st, id)
    ensures Single(Step(st, MarkFilled(job)), id)
  {
    var next := Step(st, MarkFilled(job));
    if next != st && RecordedFor(st, id) && st.jobs[job].orderId != id {
      var j :| j in st.jobs && st.jobs[j] == Recorded(id);
      assert j in next.jobs && next.jobs[j] == Recorded(id);
    }
  }

  lemma DieKeepsSingle(st: State, job: nat, id: Text)
    requires Single(st, id) && OrderlyStep(st, Die(job), id)
    ensures Single(Step(st, Die(job)), id)
  {
    var next := Step(st, Die(job));
    if RecordedFor(st, id) {
      var j :| j in st.jobs && st.jobs[j] == Recorded(id);
      assert j in next.jobs && next.jobs[j] == Recorded(id);
    }
  }

  lemma DeliverKeepsSingle(st: State, job: nat, o: Text, id: Text)
    requires Single(st, id) && OrderlyStep(st, Deliver(job, o), id)
    ensures Single(Step(st, Deliver(job, o)), id)
  {
    var next := Step(st, Deliver(job, o));
    if next != st && RecordedFor(st, id) {
      var j :| j in st.jobs && st.jobs[j] == Recorded(id);
      assert j in next.jobs && next.jobs[j] == Recorded(id);
    }
  }

  lemma SingleStep(st: State, l: Label, id: Text)
    requires Single(st, id) && OrderlyStep(st, l, id)
    ensures Single(Step(st, l), id)
  {
    match l
    case Submit(_, _) =>
    case SetStatus(_, _) =>
    case Deliver(job, o) => DeliverKeepsSingle(st, job, o, id);
    case RecordFill(job) => RecordKeepsSingle(st, job, id);
    case MarkFilled(job) => MarkKeepsSingle(st, job, id);
    case Die(job) => DieKeepsSingle(st, job, id);
  }

  lemma {:induction false} OrderlySingle(labels: seq<Label>, id: Text)
    requires Orderly(labels, id)
    ensures Single(Run(labels), id)
  {
    if labels != [] {
      OrderlySingle(labels[..|labels| - 1], id);
      SingleStep(Run(labels[..|labels| - 1]), labels[|labels| - 1], id);
    }
  }

  /** In every orderly run an order has one trade at most. */
  lemma OneTrade(labels: seq<Label>, id: Text)
    requires Orderly(labels, id)
    ensures Count(Run(labels).trades, id) <= 1
  {
    OrderlySingle(labels, id);
  }

  // Both conditions of an orderly run are needed.

  function SubmittedOnce(id: Text, price: Text): seq<Label> {
    [Submit(id, Order(true, Some(price), OrderStatus.PENDING))] + [Deliver(0, id)] + [RecordFill(0)]
  }

  lemma RecordedOnce(id: Text, price: Text)
    requires M.Parse(price).Ok?
    ensures Run(SubmittedOnce(id, price))
            == State(map[id := Order(true, Some(price), OrderStatus.PENDING)], [Trade(id, price)], map[0 := Recorded(id)])
  {
    var submit := Submit(id, Order(true, Some(price), OrderStatus.PENDING));
    OneStep(INITIAL, submit);
    StepsSnoc(INITIAL, [submit], Deliver(0, id));
    StepsSnoc(INITIAL, [submit] + [Deliver(0, id)], RecordFill(0));
    assert Run([submit] + [Deliver(0, id)]).jobs == map[0 := Loaded(id, price)];
  }

  lemma RecordsAgain(labels: seq<Label>, job: nat, id: Text, price: Text)
    requires Loadable(Run(labels), id) && FillPrice(Run(labels).orders[id]) == price && job !in Run(labels).jobs
    ensures Run(labels + [Deliver(job, id)] + [RecordFill(job)]).trades == Run(labels).trades + [Trade(id, price)]
  {
    StepsSnoc(INITIAL, labels, Deliver(job, id));
    assert Run(labels + [Deliver(job, id)]).jobs[job] == Loaded(id, price);
    StepsSnoc(INITIAL, labels + [Deliver(job, id)], RecordFill(job));
  }

  /** A run in which the order is delivered again before it is marked records two trades. */
  lemma RedeliveryRecordsTwice(id: Text, price: Text)
    requires M.Parse(price).Ok?
    ensures Run(SubmittedOnce(id, price) + [Deliver(1, id)] + [RecordFill(1)]).trades
            == [Trade(id, price), Trade(id, price)]
  {
    RecordedOnce(id, price);
    RecordsAgain(SubmittedOnce(id, price), 1, id, price);
  }

  /** So does one in which the process dies between recording and marking. */
  lemma CrashRecordsTwice(id: Text, price: Text)
    requires M.Parse(price).Ok?
    ensures Run(SubmittedOnce(id, price) + [Die(0)] + [Deliver(1, id)] + [RecordFill(1)]).trades
            == [Trade(id, price), Trade(id, price)]
  {
    RecordedOnce(id, price);
    StepsSnoc(INITIAL, SubmittedOnce(id, price), Die(0));
    RecordsAgain(SubmittedOnce(id, price) + [Die(0)], 1, id, price);
  }

  // ----- At what price -----

  /** The order's own price if it has one, and the code units of 100 otherwise. */
  predicate PriceIs(o: Order, price: Text) {
    match o.price
    case Some(own) => price == own
    case None => price == [0x31, 0x30, 0x30]
  }

  lemma PriceIsFill(o: Order)
    ensures PriceIs(o, FillPrice(o))
  {
    assert REFERENCE_PRICE_FALLBACK == [0x31, 0x30, 0x30];
  }

  /** A delivery loads an order exactly if it is pending or accepted and its price can be read. */
  lemma DeliveryLoads(st: State, job: nat, id: Text, price: Text)
    requires job !in st.jobs && id in st.orders && PriceIs(st.orders[id], price)
    ensures var o := st.orders[id];
            Step(st, Deliver(job, id))
            == if (o.status == OrderStatus.PENDING || o.status == ACCEPTED) && M.Parse(price).Ok?
               then State(st.orders, st.trades, st.jobs[job := Loaded(id, price)]) else st
  {
    PriceIsFill(st.orders[id]);
  }

  /** The order keeps its price. */
  predicate SamePrice(before: State, after: State, id: Text) {
    id in before.orders ==> id in after.orders && after.orders[id].price == before.orders[id].price
  }

  predicate Priced(st: State, id: Text, price: Text) {
    id in st.orders && PriceIs(st.orders[id], price)
  }

  predicate AllPriced(st: State) {
    && (forall t | t in st.trades :: Priced(st, t.orderId, t.price))
    && forall j | j in st.jobs && st.jobs[j].Loaded? :: Priced(st, st.jobs[j].orderId, st.jobs[j].price)
  }

  lemma StepKeepsPrices(st: State, l: Label)
    requires AllPriced(st)
    ensures AllPriced(Step(st, l)) && forall id :: SamePrice(st, Step(st, l), id)
  {
    if l.Deliver? && l.orderId in st.orders { PriceIsFill(st.orders[l.orderId]); }
  }

  /** In every run, a trade has the price of its order. */
  lemma {:induction false} TradesPriced(labels: seq<Label>)
    ensures AllPriced(Run(labels))
  {
    if labels != [] {
      TradesPriced(labels[..|labels| - 1]);
      StepKeepsPrices(Run(labels[..|labels| - 1]), labels[|labels| - 1]);
    }
  }
}
