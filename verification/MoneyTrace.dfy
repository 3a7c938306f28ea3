/** The balance of a broker from the steps of a run alone: from the texts that were sent, read digit
    by digit, and from the exact product of the fee and the quantity of every opening fill. */
module MoneyTrace {
  import opened Texts
  import opened ColumnUnits
  import opened Commissions
  import opened Conservation
  import opened DecimalReader
  import opened Funds

  // ----- What the steps of a run come to -----

  /** What a step owes as commission: nothing unless it records a fill of the broker that opens a
      position, with texts that can be read and a fee that fits. */
  function DueAt(rate: Text, l: Label, b: Text): int {
    if l.RecordFill? && l.fill.brokerId == b && Reads(rate, l.fill.quantity)
       && Owed(rate, OrderId(l.fill), l.fill.quantity) && Fee(rate, OrderId(l.fill), l.fill.quantity) < LIMIT
    then Fee(rate, OrderId(l.fill), l.fill.quantity) else 0
  }

  function Due(rate: Text, labels: seq<Label>, b: Text): int {
    if labels == [] then 0
    else Due(rate, labels[..|labels| - 1], b) + DueAt(rate, labels[|labels| - 1], b)
  }

  /** The step can open the broker's account. */
  predicate Opens(l: Label, b: Text) {
    l.CreateBroker? && l.brokerId == b && 0 < AmountOf(l.amount) < LIMIT
  }

  /** The amount of the first step that opens the broker's account. */
  function OpenedWith(labels: seq<Label>, b: Text): int {
    if labels == [] then 0
    else
      var n := |labels| - 1;
      var earlier := OpenedWith(labels[..n], b);
      if earlier == 0 && Opens(labels[n], b) then AmountOf(labels[n].amount) else earlier
  }

  /** The step sent the request: of its kind and broker, for its amount, when its id was next. */
  predicate Sent(c: Config, labels: seq<Label>, i: nat, r: Request)
    requires i < |labels|
  {
    && labels[i].Submit? && labels[i].kind == r.kind && labels[i].brokerId == r.brokerId
    && AmountOf(labels[i].amount) == r.amount && 0 <= r.amount < LIMIT
    && Run(c, labels[..i]).books.nextId == r.requestId
  }

  // ----- Commissions -----

  lemma FillDue(t: Tables, rate: Text, f: Fill, b: Text)
    ensures Charged(AfterFill(t, rate, f).charges, b) == Charged(t.charges, b) + DueAt(rate, RecordFill(f), b)
  {
    CommissionMeans(rate, f);
    var after := AfterFill(t, rate, f);
    if after.charges != t.charges {
      assert after.charges[..|t.charges|] == t.charges;
    }
  }

  lemma StepDue(c: Config, t: Tables, l: Label, b: Text)
    ensures Charged(Step(c, t, l).charges, b) == Charged(t.charges, b) + DueAt(c.rate, l, b)
  {
    if l.RecordFill? { FillDue(t, c.rate, l.fill, b); }
  }

  /** The commissions a broker was charged in a run are what its fills came to. */
  lemma {:induction false} CommissionsDue(c: Config, labels: seq<Label>, b: Text)
    ensures Charged(Run(c, labels).charges, b) == Due(c.rate, labels, b)
  {
    if labels != [] {
      var n := |labels| - 1;
      CommissionsDue(c, labels[..n], b);
      StepDue(c, Run(c, labels[..n]), labels[n], b);
    }
  }

  // ----- Opening balances -----

  lemma StepOpens(c: Config, t: Tables, l: Label, b: Text)
    ensures Step(c, t, l).brokers
            == if l.CreateBroker? && l.brokerId !in t.brokers && Opens(l, l.brokerId)
               then t.brokers[l.brokerId := AmountOf(l.amount)] else t.brokers
  {
    if l.CreateBroker? { RequestUnitsAre(l.amount); }
  }

  lemma {:induction false} OpeningsAre(c: Config, labels: seq<Label>, b: Text)
    ensures Opening(Run(c, labels).brokers, b) == OpenedWith(labels, b) >= 0
    ensures b in Run(c, labels).brokers <==> OpenedWith(labels, b) > 0
  {
    if labels != [] {
      var n := |labels| - 1;
      OpeningsAre(c, labels[..n], b);
      StepOpens(c, Run(c, labels[..n]), labels[n], b);
    }
  }

  // ----- Requests -----

  predicate SameRequest(r: Request, q: Request) {
    r == q.(status := r.status)
  }

  /** A step keeps every request but for its status, and adds one at most: the one it sends. */
  predicate Follows(t: Tables, u: Tables, l: Label) {
    && |t.requests| <= |u.requests| <= |t.requests| + 1
    && (forall k | 0 <= k < |t.requests| :: SameRequest(u.requests[k], t.requests[k]))
    && (|u.requests| > |t.requests| ==>
          var r := u.requests[|t.requests|];
          && l.Submit? && l.kind == r.kind && l.brokerId == r.brokerId && AmountOf(l.amount) == r.amount
          && 0 <= r.amount < LIMIT && r.requestId == t.books.nextId)
  }

  lemma SubmitFollows(c: Config, t: Tables, kind: RequestKind, b: Text, amount: Text)
    ensures Follows(t, AfterRequest(t, c.floor, kind, b, amount), Submit(kind, b, amount))
  {
    RequestAsked(t, c.floor, kind, b, amount);
  }

  lemma DecisionFollows(t: Tables, id: nat)
    ensures Follows(t, AfterGrant(t, id), Grant(id)) && Follows(t, AfterRefuse(t, id), Refuse(id))
  {
  }

  lemma StepFollows(c: Config, t: Tables, l: Label)
    ensures Follows(t, Step(c, t, l), l)
  {
    match l
    case CreateBroker(b, amount, currency) =>
    case Submit(kind, b, amount) => SubmitFollows(c, t, kind, b, amount);
    case Grant(id) => DecisionFollows(t, id);
    case Refuse(id) => DecisionFollows(t, id);
    case RecordFill(fill) =>
    case Adjust(payload) =>
  }

  lemma SentEarlier(c: Config, labels: seq<Label>, i: nat, r: Request, q: Request)
    requires labels != [] && i < |labels| - 1 && Sent(c, labels[..|labels| - 1], i, q) && SameRequest(r, q)
    ensures Sent(c, labels, i, r)
  {
    assert labels[..|labels| - 1][..i] == labels[..i];
  }

  /** Every request was sent by a step, and has the amount that its text spells. */
  lemma {:induction false} RequestSent(c: Config, labels: seq<Label>, k: nat)
    requires k < |Run(c, labels).requests|
    ensures exists i | 0 <= i < |labels| :: Sent(c, labels, i, Run(c, labels).requests[k])
  {
    if labels != [] {
      var n := |labels| - 1;
      var t, u := Run(c, labels[..n]), Run(c, labels);
      StepFollows(c, t, labels[n]);
      if k < |t.requests| {
        RequestSent(c, labels[..n], k);
        var i :| 0 <= i < n && Sent(c, labels[..n], i, t.requests[k]);
        assert SameRequest(u.requests[k], t.requests[k]);
        SentEarlier(c, labels, i, u.requests[k], t.requests[k]);
      } else {
        assert Sent(c, labels, n, u.requests[k]);
      }
    }
  }

  // ----- The balance -----

  /** In every run, for every broker: the wallets hold the amount of the first step that opened the
      account, plus the granted deposits, minus the granted withdrawals, minus what the opening fills
      came to. */
  lemma BalanceFromSteps(c: Config, labels: seq<Label>, b: Text)
    ensures var t := Run(c, labels);
            TotalOf(t, b)
            == OpenedWith(labels, b) + Granted(t.requests, deposit, b) - Granted(t.requests, withdrawal, b)
               - Due(c.rate, labels, b)
  {
    BalanceConserved(c, labels, b);
    OpeningsAre(c, labels, b);
    CommissionsDue(c, labels, b);
  }
}
