/** Money that enters and leaves a broker's wallets: opening balance, deposit and withdrawal
    requests, and the commission on fills. Handlers are serialised: each runs its transaction to
    the end before the next begins. Amounts are exact, in units of 0.0001. */
module Funds {
  import opened Texts
  import opened Canonical
  import opened ColumnUnits
  import opened Commissions
  import opened DecimalReader
  import opened Decimals
  import opened Ledger
  import opened PendingActions
  import Money
  import M = MoneyText
  import N = NumericColumns

  datatype RequestKind = deposit | withdrawal

  datatype RequestStatus = PENDING | APPROVED | REJECTED

  datatype Request = Request(
    requestId: nat,
    kind: RequestKind,
    brokerId: Text,
    amount: int,
    currency: Text,
    status: RequestStatus)

  /** A BROKERAGE charge, with the broker of its trade. */
  datatype Charge = Charge(tradeId: Text, brokerId: Text, amount: int)

  /** The tables. `brokers` maps each broker to its audited opening balance. */
  datatype Tables = Tables(
    books: Books,
    brokers: map<Text, int>,
    requests: seq<Request>,
    charges: seq<Charge>)

  const EMPTY: Tables := Tables(Books([], [], 0), map[], [], [])

  /** The order columns that decide about commission, and the new trade's id. */
  datatype Fill = Fill(tradeId: Text, brokerId: Text, clientOrderId: Option<Text>, quantity: Text)

  const USD: Text := Ascii("USD")
  const CLOSE_SUFFIX: Text := Ascii("-C")

  // ----- Queries -----

  /** The position of the broker's first wallet, or the length. */
  function FirstWallet(wallets: seq<Wallet>, brokerId: Text): (i: nat)
    ensures i <= |wallets| && (i < |wallets| ==> wallets[i].brokerId == brokerId)
  {
    if wallets == [] || wallets[0].brokerId == brokerId then 0 else 1 + FirstWallet(wallets[1..], brokerId)
  }

  function CurrencyOf(wallets: seq<Wallet>, brokerId: Text): Text {
    var i := FirstWallet(wallets, brokerId);
    if i < |wallets| then wallets[i].currency else USD
  }

  /** The balances of all wallets of the broker, added up. */
  function BrokerBalance(wallets: seq<Wallet>, entries: seq<Entry>, brokerId: Text): int {
    if wallets == [] then 0
    else
      var n := |wallets| - 1;
      BrokerBalance(wallets[..n], entries, brokerId)
      + if wallets[n].brokerId == brokerId then Balance(entries, wallets[n].walletId) else 0
  }

  function FindRequest(requests: seq<Request>, id: nat): (i: nat)
    ensures i <= |requests| && (i < |requests| ==> requests[i].requestId == id)
    ensures forall k | 0 <= k < i :: requests[k].requestId != id
  {
    if requests == [] || requests[0].requestId == id then 0 else 1 + FindRequest(requests[1..], id)
  }

  /** The units of an amount that matches the schema and fits the column. */
  function RequestUnits(amount: Text): Result<int> {
    if !AmountPattern(amount) then TypeError
    else
      var m := M.Parse(amount);
      if m.TypeError? || !N.Fits(m.value) then TypeError else Ok(N.Units(m.value))
  }

  /** The units are the amount the text spells. */
  lemma RequestUnitsAre(t: Text)
    ensures RequestUnits(t) == if 0 <= AmountOf(t) < LIMIT then Ok(AmountOf(t)) else TypeError
    ensures AmountOf(t) >= 0 ==> M.Parse(t).Ok? && (M.Parse(t).value.mag == 0 <==> AmountOf(t) == 0)
  {
    AmountMeans(t);
    if AmountOf(t) >= 0 {
      AmountParsed(t);
      TwentyDigits(AmountOf(t));
    }
  }

  function EndsWith(t: Text, suffix: Text): bool {
    |t| >= |suffix| && t[|t| - |suffix|..] == suffix
  }

  function Commission(rate: Decimal, quantity: Decimal): Decimal {
    Money.Mul(rate, quantity)
  }

  /** What a fill is charged: nothing for a closing leg, an error if an amount is malformed. */
  function CommissionUnits(rate: Text, f: Fill): Result<Option<int>> {
    var q, r := M.Parse(f.quantity), M.Parse(rate);
    if q.TypeError? || r.TypeError? then TypeError
    else
      var commission := Commission(r.value, M.Plain(q.value));
      var isClose := EndsWith(if f.clientOrderId.Some? then f.clientOrderId.value else [], CLOSE_SUFFIX);
      if isClose || !IsPositive(commission) then Ok(None)
      else if !N.Fits(commission) then TypeError
      else Ok(Some(N.Units(commission)))
  }

  /** `clientOrderId ?? ''` */
  function OrderId(f: Fill): Text {
    if f.clientOrderId.Some? then f.clientOrderId.value else []
  }

  lemma SuffixIs(id: Text)
    ensures EndsWith(id, CLOSE_SUFFIX) <==> Closing(id)
  {
    assert CLOSE_SUFFIX == [0x2D, 0x43];
    if |id| >= 2 {
      assert id[|id| - 2..] == [id[|id| - 2], id[|id| - 1]];
    }
  }

  lemma CommissionIs(r: Decimal, q: Decimal)
    ensures IsPositive(Commission(r, M.Plain(q))) <==> Exact(r, q) > 0
    ensures Exact(r, q) > 0 ==>
              var units := DueUnits(Exact(r, q), Scales(r, q));
              N.Units(Commission(r, M.Plain(q))) == units && (N.Fits(Commission(r, M.Plain(q))) <==> units < LIMIT)
  {
    PositiveProduct(r, M.Plain(q));
    assert Exact(r, M.Plain(q)) == Exact(r, q);
    if Exact(r, q) > 0 {
      ProductUnits(r, M.Plain(q));
      TwentyDigits(DueUnits(Exact(r, q), Scales(r, q)));
    }
  }

  /** What is charged, from the exact product: nothing on closing, an error for a malformed text or
      for more than twenty digits. */
  lemma CommissionMeans(rate: Text, f: Fill)
    ensures var id, units := OrderId(f), CommissionUnits(rate, f);
            && (units.Ok? <==> Reads(rate, f.quantity)
                               && (Owed(rate, id, f.quantity) ==> Fee(rate, id, f.quantity) < LIMIT))
            && (units.Ok? ==>
                  units.value == if Owed(rate, id, f.quantity) then Some(Fee(rate, id, f.quantity)) else None)
  {
    SuffixIs(OrderId(f));
    if Reads(rate, f.quantity) {
      CommissionIs(M.Parse(rate).value, M.Parse(f.quantity).value);
    }
  }

  // ----- What each handler commits -----

  function Posted(books: Books, walletId: nat, direction: Direction, amount: int, currency: Text,
                  purpose: ReferenceType, reference: Reference): Books {
    WithEntry(books, Leg(walletId, direction, amount, currency, purpose, reference))
  }

  function CreateReply(t: Tables, brokerId: Text, amount: Text): Reply {
    var units := RequestUnits(amount);
    if units.TypeError? || M.Parse(amount).value.mag == 0 then Invalid
    else if brokerId in t.brokers then Conflict
    else Done
  }

  function WithBroker(t: Tables, brokerId: Text, units: int, currency: Text): Tables {
    var id := t.books.nextId;
    var funded := Books(t.books.wallets + [Wallet(id, brokerId, currency)], t.books.entries, id + 1);
    t.(books := Posted(funded, id, CREDIT, units, currency, DEPOSIT, Given(brokerId)),
       brokers := t.brokers[brokerId := units])
  }

  function AfterCreateBroker(t: Tables, brokerId: Text, amount: Text, currency: Text): Tables {
    if CreateReply(t, brokerId, amount) != Done then t
    else WithBroker(t, brokerId, RequestUnits(amount).value, currency)
  }

  function AtLeast(a: int, b: int): int {
    if a < b then b else a
  }

  /** What can be withdrawn: the balance above the floor. */
  function Available(t: Tables, floor: int, brokerId: Text): int {
    AtLeast(0, BrokerBalance(t.books.wallets, t.books.entries, brokerId) - floor)
  }

  /** A withdrawal is capped by the balance above the floor, over all wallets. */
  function RequestReply(t: Tables, floor: int, kind: RequestKind, brokerId: Text, amount: Text): Reply {
    var units := RequestUnits(amount);
    if units.TypeError? then Invalid
    else if kind == withdrawal && units.value > Available(t, floor, brokerId) then Invalid
    else Done
  }

  function AfterRequest(t: Tables, floor: int, kind: RequestKind, brokerId: Text, amount: Text): Tables {
    if RequestReply(t, floor, kind, brokerId, amount) != Done then t
    else
      var id := t.books.nextId;
      var request := Request(id, kind, brokerId, RequestUnits(amount).value,
                             CurrencyOf(t.books.wallets, brokerId), RequestStatus.PENDING);
      t.(books := t.books.(nextId := id + 1), requests := t.requests + [request])
  }

  function DecideReply(t: Tables, id: nat): Reply {
    var i := FindRequest(t.requests, id);
    if i == |t.requests| then NotFound
    else if t.requests[i].status != RequestStatus.PENDING then Conflict
    else Done
  }

  function WalletOf(t: Tables, r: Request): nat {
    WalletIdFor(t.books, r.brokerId, r.currency)
  }

  /** A withdrawal must be covered by the wallet it is taken from. */
  function GrantReply(t: Tables, id: nat): Reply {
    if DecideReply(t, id) != Done then DecideReply(t, id)
    else
      var r := t.requests[FindRequest(t.requests, id)];
      if r.kind == withdrawal && r.amount > Balance(t.books.entries, WalletOf(t, r)) then Conflict
      else Done
  }

  function RequestLeg(r: Request, walletId: nat): Leg {
    Leg(walletId, if r.kind == withdrawal then DEBIT else CREDIT, r.amount, r.currency,
        if r.kind == withdrawal then WITHDRAWAL else DEPOSIT, Generated(r.requestId))
  }

  function AfterGrant(t: Tables, id: nat): Tables {
    if GrantReply(t, id) != Done then t
    else
      var i := FindRequest(t.requests, id);
      var r := t.requests[i];
      t.(books := WithEntry(WithWallet(t.books, r.brokerId, r.currency), RequestLeg(r, WalletOf(t, r))),
         requests := t.requests[i := r.(status := RequestStatus.APPROVED)])
  }

  function AfterRefuse(t: Tables, id: nat): Tables {
    if DecideReply(t, id) != Done then t
    else
      var i := FindRequest(t.requests, id);
      t.(requests := t.requests[i := t.requests[i].(status := RequestStatus.REJECTED)])
  }

  function WithFirstWallet(books: Books, brokerId: Text): Books {
    if FirstWallet(books.wallets, brokerId) < |books.wallets| then books
    else Books(books.wallets + [Wallet(books.nextId, brokerId, USD)], books.entries, books.nextId + 1)
  }

  function FirstWalletId(books: Books, brokerId: Text): nat {
    var i := FirstWallet(books.wallets, brokerId);
    if i < |books.wallets| then books.wallets[i].walletId else books.nextId
  }

  /** The money part of recording a fill. */
  function AfterFill(t: Tables, rate: Text, f: Fill): Tables {
    var units := CommissionUnits(rate, f);
    if units.TypeError? || units.value.None? then t
    else
      var amount := units.value.value;
      t.(books := Posted(WithFirstWallet(t.books, f.brokerId), FirstWalletId(t.books, f.brokerId), DEBIT, amount,
                         CurrencyOf(t.books.wallets, f.brokerId), CHARGE, Given(f.tradeId)),
         charges := t.charges + [Charge(f.tradeId, f.brokerId, amount)])
  }

  /** The first of the broker's wallets. */
  predicate IsFirst(wallets: seq<Wallet>, w: Wallet) {
    exists i | 0 <= i < |wallets| :: wallets[i] == w && forall k | 0 <= k < i :: wallets[k].brokerId != w.brokerId
  }

  predicate Owns(wallets: seq<Wallet>, brokerId: Text) {
    exists w | w in wallets :: w.brokerId == brokerId
  }

  /** One debit of `amount` more, on the broker's first wallet; a broker without one gets a wallet in
      the code units of USD. */
  predicate Debited(before: Books, after: Books, f: Fill, amount: int) {
    && |after.entries| == |before.entries| + 1 && after.entries[..|before.entries|] == before.entries
    && var leg := after.entries[|before.entries|].leg;
       var w := Wallet(leg.walletId, f.brokerId, leg.currency);
       && leg.direction == DEBIT && leg.amount == amount
       && leg.referenceType == CHARGE && leg.reference == Given(f.tradeId)
       && if Owns(before.wallets, f.brokerId) then after.wallets == before.wallets && IsFirst(before.wallets, w)
          else after.wallets == before.wallets + [w] && w.walletId == before.nextId && w.currency == [0x55, 0x53, 0x44]
  }

  lemma FirstIs(wallets: seq<Wallet>, brokerId: Text)
    ensures var i := FirstWallet(wallets, brokerId);
            && (Owns(wallets, brokerId) <==> i < |wallets|)
            && (i < |wallets| ==> IsFirst(wallets, wallets[i]))
  {
    var i := FirstWallet(wallets, brokerId);
    FirstSkips(wallets, brokerId);
    if i < |wallets| { assert wallets[i] in wallets; }
  }

  lemma {:induction false} FirstSkips(wallets: seq<Wallet>, brokerId: Text)
    ensures forall k | 0 <= k < FirstWallet(wallets, brokerId) :: wallets[k].brokerId != brokerId
  {
    if wallets != [] && wallets[0].brokerId != brokerId {
      FirstSkips(wallets[1..], brokerId);
      forall k | 0 <= k < FirstWallet(wallets, brokerId) ensures wallets[k].brokerId != brokerId {
        if k > 0 { assert wallets[k] == wallets[1..][k - 1]; }
      }
    }
  }

  lemma FillDebits(t: Tables, rate: Text, f: Fill)
    requires CommissionUnits(rate, f).Ok? && CommissionUnits(rate, f).value.Some?
    ensures Debited(t.books, AfterFill(t, rate, f).books, f, CommissionUnits(rate, f).value.value)
  {
    FirstIs(t.books.wallets, f.brokerId);
    assert USD == [0x55, 0x53, 0x44];
  }

  /** A wallet adjustment, by either path. */
  function AfterAdjustment(t: Tables, p: Payload): Tables {
    var units := PayloadUnits(p);
    if units.TypeError? then t else t.(books := Adjusted(t.books, p, units.value))
  }

  // ----- What the handlers are to do -----

  /** A wallet in the currency, and one credit on it. */
  predicate Opened(before: Books, after: Books, brokerId: Text, units: int, currency: Text) {
    && |after.wallets| == |before.wallets| + 1 && |after.entries| == |before.entries| + 1
    && var id := after.wallets[|before.wallets|].walletId;
       && id == before.nextId && after.wallets == before.wallets + [Wallet(id, brokerId, currency)]
       && after.entries
          == before.entries
             + [Entry(after.entries[|before.entries|].entryId,
                      Leg(id, CREDIT, units, currency, DEPOSIT, Given(brokerId)))]
  }

  /** The currency of the broker's first wallet; the code units of USD if it has none. */
  predicate InCurrency(wallets: seq<Wallet>, brokerId: Text, currency: Text) {
    if Owns(wallets, brokerId) then
      exists i | 0 <= i < |wallets| ::
        wallets[i].brokerId == brokerId && wallets[i].currency == currency
        && forall k | 0 <= k < i :: wallets[k].brokerId != brokerId
    else currency == [0x55, 0x53, 0x44]
  }

  lemma CurrencyIs(wallets: seq<Wallet>, brokerId: Text)
    ensures InCurrency(wallets, brokerId, CurrencyOf(wallets, brokerId))
  {
    FirstIs(wallets, brokerId);
    FirstSkips(wallets, brokerId);
    assert USD == [0x55, 0x53, 0x44];
  }

  /** One pending request more, in the broker's currency. */
  predicate Asked(before: Tables, after: Tables, kind: RequestKind, brokerId: Text, units: int) {
    && after.brokers == before.brokers && after.charges == before.charges
    && after.books == before.books.(nextId := before.books.nextId + 1) && |after.requests| == |before.requests| + 1
    && var r := after.requests[|before.requests|];
       && after.requests == before.requests + [r] && InCurrency(before.books.wallets, brokerId, r.currency)
       && r == Request(before.books.nextId, kind, brokerId, units, r.currency, RequestStatus.PENDING)
  }

  /** The first request with the id, which is at `i`. */
  predicate RequestAt(requests: seq<Request>, i: nat, id: nat) {
    i < |requests| && requests[i].requestId == id && forall k | 0 <= k < i :: requests[k].requestId != id
  }

  /** The request is approved, and its entry is posted on its wallet: a withdrawal as a debit, a
      deposit as a credit. */
  predicate GrantedAs(before: Tables, after: Tables, i: nat)
    requires i < |before.requests|
  {
    var r := before.requests[i];
    && after.brokers == before.brokers && after.charges == before.charges
    && after.requests == before.requests[i := r.(status := RequestStatus.APPROVED)]
    && |after.books.entries| == |before.books.entries| + 1
    && var e := after.books.entries[|before.books.entries|];
       && after.books.entries == before.books.entries + [e]
       && WalletFor(before.books.wallets, after.books.wallets, before.books.nextId,
                    Wallet(e.leg.walletId, r.brokerId, r.currency))
       && e.leg == (match r.kind
                    case withdrawal =>
                      Leg(e.leg.walletId, DEBIT, r.amount, r.currency, WITHDRAWAL, Generated(r.requestId))
                    case deposit =>
                      Leg(e.leg.walletId, CREDIT, r.amount, r.currency, DEPOSIT, Generated(r.requestId)))
  }

  /** The id of the broker's first wallet in the currency, or the next id if it has none. */
  predicate WalletIdIs(books: Books, brokerId: Text, currency: Text, id: nat) {
    if Has(books.wallets, brokerId, currency) then FirstOfItsKind(books.wallets, Wallet(id, brokerId, currency))
    else id == books.nextId
  }

  /** A request for at most what is above the floor, or for a deposit of any size, is added; any other
      is refused and changes nothing. */
  lemma RequestAsked(t: Tables, floor: int, kind: RequestKind, brokerId: Text, amount: Text)
    ensures var units := AmountOf(amount);
            var over := BrokerBalance(t.books.wallets, t.books.entries, brokerId) - floor;
            var after := AfterRequest(t, floor, kind, brokerId, amount);
            if 0 <= units < LIMIT && (kind == withdrawal ==> units == 0 || units <= over) then
              RequestReply(t, floor, kind, brokerId, amount) == Done && Asked(t, after, kind, brokerId, units)
            else RequestReply(t, floor, kind, brokerId, amount) == Invalid && after == t
  {
    RequestUnitsAre(amount);
    CurrencyIs(t.books.wallets, brokerId);
  }

  lemma {:induction false} FindsFirst(requests: seq<Request>, i: nat, id: nat)
    requires RequestAt(requests, i, id)
    ensures FindRequest(requests, id) == i
  {
    if i > 0 {
      assert requests[0].requestId != id;
      assert RequestAt(requests[1..], i - 1, id) by {
        assert forall k | 0 <= k < i - 1 :: requests[1..][k] == requests[k + 1];
      }
      FindsFirst(requests[1..], i - 1, id);
    }
  }

  lemma WalletIdFound(books: Books, brokerId: Text, currency: Text, id: nat)
    requires WalletIdIs(books, brokerId, currency, id)
    ensures WalletIdFor(books, brokerId, currency) == id
  {
    WalletIsFor(books, brokerId, currency);
    if Has(books.wallets, brokerId, currency) {
      var w := Wallet(id, brokerId, currency);
      var i :| 0 <= i < |books.wallets| && books.wallets[i] == w
               && forall k | 0 <= k < i ::
                    books.wallets[k].brokerId != brokerId || books.wallets[k].currency != currency;
      var j := FindWallet(books.wallets, brokerId, currency);
      assert i == j;
    }
  }

  /** The request with the id decides about granting it: found, pending, and for a withdrawal covered
      by its wallet. */
  lemma GrantDecided(t: Tables, id: nat, i: nat, w: nat)
    requires RequestAt(t.requests, i, id) && WalletIdIs(t.books, t.requests[i].brokerId, t.requests[i].currency, w)
    ensures var r := t.requests[i];
            var granted := r.status == RequestStatus.PENDING
                           && (r.kind == withdrawal ==> r.amount <= Balance(t.books.entries, w));
            if granted then GrantReply(t, id) == Done && GrantedAs(t, AfterGrant(t, id), i)
            else GrantReply(t, id) == Conflict && AfterGrant(t, id) == t
  {
    FindsFirst(t.requests, i, id);
    WalletIdFound(t.books, t.requests[i].brokerId, t.requests[i].currency, w);
    WalletIsFor(t.books, t.requests[i].brokerId, t.requests[i].currency);
  }

  lemma NotFoundGrant(t: Tables, id: nat)
    requires forall r | r in t.requests :: r.requestId != id
    ensures GrantReply(t, id) == NotFound && AfterGrant(t, id) == t
    ensures DecideReply(t, id) == NotFound && AfterRefuse(t, id) == t
  {
  }

  /** The same for refusing it, which needs no cover and posts nothing. */
  lemma RefusalDecided(t: Tables, id: nat, i: nat)
    requires RequestAt(t.requests, i, id)
    ensures var r := t.requests[i];
            if r.status == RequestStatus.PENDING then
              && DecideReply(t, id) == Done
              && AfterRefuse(t, id)
                 == Tables(t.books, t.brokers, t.requests[i := r.(status := RequestStatus.REJECTED)], t.charges)
            else DecideReply(t, id) == Conflict && AfterRefuse(t, id) == t
  {
    FindsFirst(t.requests, i, id);
  }

  // ----- The handlers -----

  class Accounts {
    const ledger: LedgerStore
    var brokers: map<Text, int>
    var requests: seq<Request>
    var charges: seq<Charge>

    function Value(): Tables
      reads this, ledger
    {
      Tables(ledger.Value(), brokers, requests, charges)
    }

    constructor ()
      ensures Value() == EMPTY && fresh(ledger)
    {
      ledger := new LedgerStore();
      brokers, requests, charges := map[], [], [];
    }

    method Post(walletId: nat, direction: Direction, amount: int, currency: Text,
                purpose: ReferenceType, reference: Reference)
      modifies ledger
      ensures ledger.Value() == Posted(old(ledger.Value()), walletId, direction, amount, currency, purpose, reference)
    {
      var entryId := ledger.NewId();
      ledger.entries := ledger.entries + [Entry(entryId, Leg(walletId, direction, amount, currency, purpose, reference))];
    }

    method CreateBroker(brokerId: Text, amount: Text, currency: Text) returns (reply: Reply)
      modifies this, ledger
      ensures reply == CreateReply(old(Value()), brokerId, amount)
      ensures Value() == AfterCreateBroker(old(Value()), brokerId, amount, currency)
      ensures reply == if !(0 < AmountOf(amount) < LIMIT) then Invalid
                       else if brokerId in old(brokers) then Conflict else Done
      ensures reply == Done ==>
                && brokers == old(brokers)[brokerId := AmountOf(amount)]
                && Opened(old(ledger.Value()), ledger.Value(), brokerId, AmountOf(amount), currency)
      ensures reply != Done ==> Value() == old(Value())
    {
      RequestUnitsAre(amount);
      var units := RequestUnits(amount);
      if units.TypeError? || M.Parse(amount).value.mag == 0 {
        return Invalid;
      }
      if brokerId in brokers {
        return Conflict;
      }
      OpenWallet(brokerId, units.value, currency);
      return Done;
    }

    method OpenWallet(brokerId: Text, units: int, currency: Text)
      modifies this`brokers, ledger
      ensures Value() == WithBroker(old(Value()), brokerId, units, currency)
    {
      brokers := brokers[brokerId := units];
      var walletId := ledger.NewId();
      ledger.wallets := ledger.wallets + [Wallet(walletId, brokerId, currency)];
      Post(walletId, CREDIT, units, currency, DEPOSIT, Given(brokerId));
    }

    /** The loop over the broker's wallets. */
    method TotalBalance(brokerId: Text) returns (balance: int)
      ensures balance == BrokerBalance(ledger.wallets, ledger.entries, brokerId)
    {
      balance := 0;
      for i := 0 to |ledger.wallets|
        invariant balance == BrokerBalance(ledger.wallets[..i], ledger.entries, brokerId)
      {
        assert ledger.wallets[..i + 1][..i] == ledger.wallets[..i];
        if ledger.wallets[i].brokerId == brokerId {
          var b := ledger.GetBalance(ledger.wallets[i].walletId);
          balance := balance + b;
        }
      }
      assert ledger.wallets[..|ledger.wallets|] == ledger.wallets;
    }

    method Withdrawable(floor: int, brokerId: Text) returns (avail: int)
      ensures avail == Available(Value(), floor, brokerId)
    {
      var balance := TotalBalance(brokerId);
      avail := AtLeast(0, balance - floor);
    }

    method CreateRequest(floor: int, kind: RequestKind, brokerId: Text, amount: Text) returns (reply: Reply)
      modifies this, ledger
      ensures reply == RequestReply(old(Value()), floor, kind, brokerId, amount)
      ensures Value() == AfterRequest(old(Value()), floor, kind, brokerId, amount)
    {
      var units := RequestUnits(amount);
      if units.TypeError? {
        return Invalid;
      }
      var currency := CurrencyOf(ledger.wallets, brokerId);
      if kind == withdrawal {
        var avail := Withdrawable(floor, brokerId);
        if units.value > avail {
          return Invalid;
        }
      }
      var requestId := ledger.NewId();
      requests := requests + [Request(requestId, kind, brokerId, units.value, currency, RequestStatus.PENDING)];
      return Done;
    }

    method Approve(id: nat) returns (reply: Reply)
      modifies this, ledger
      ensures reply == GrantReply(old(Value()), id)
      ensures Value() == AfterGrant(old(Value()), id)
    {
      var saved := ledger.Value();
      var i := FindRequest(requests, id);
      if i == |requests| {
        return NotFound;
      }
      var req := requests[i];
      if req.status != RequestStatus.PENDING {
        return Conflict;
      }
      var isWithdrawal := req.kind == withdrawal;
      var walletId := ledger.FindOrCreateWallet(req.brokerId, req.currency);
      if isWithdrawal {
        var bal := ledger.GetBalance(walletId);
        if req.amount > bal {
          ledger.wallets, ledger.nextId := saved.wallets, saved.nextId;
          return Conflict;
        }
      }
      Post(walletId, if isWithdrawal then DEBIT else CREDIT, req.amount, req.currency,
           if isWithdrawal then WITHDRAWAL else DEPOSIT, Generated(req.requestId));
      requests := requests[i := req.(status := RequestStatus.APPROVED)];
      return Done;
    }

    method Reject(id: nat) returns (reply: Reply)
      modifies this
      ensures reply == DecideReply(old(Value()), id)
      ensures Value() == AfterRefuse(old(Value()), id)
    {
      var i := FindRequest(requests, id);
      if i == |requests| {
        return NotFound;
      }
      if requests[i].status != RequestStatus.PENDING {
        return Conflict;
      }
      requests := requests[i := requests[i].(status := RequestStatus.REJECTED)];
      return Done;
    }

    method FirstOrNewWallet(brokerId: Text) returns (walletId: nat)
      modifies ledger
      ensures walletId == FirstWalletId(old(ledger.Value()), brokerId)
      ensures ledger.Value() == WithFirstWallet(old(ledger.Value()), brokerId)
    {
      var i := FirstWallet(ledger.wallets, brokerId);
      if i < |ledger.wallets| {
        return ledger.wallets[i].walletId;
      }
      walletId := ledger.NewId();
      ledger.wallets := ledger.wallets + [Wallet(walletId, brokerId, USD)];
    }

    /** The commission of a fill: a charge and a debit, or nothing. The result says whether the
        transaction goes on. */
    method ChargeCommission(rate: Text, f: Fill) returns (ok: bool)
      modifies this, ledger
      ensures ok == CommissionUnits(rate, f).Ok?
      ensures Value() == AfterFill(old(Value()), rate, f)
      ensures ok <==> Reads(rate, f.quantity)
                      && (Owed(rate, OrderId(f), f.quantity) ==> Fee(rate, OrderId(f), f.quantity) < LIMIT)
      ensures !ok || !Owed(rate, OrderId(f), f.quantity) ==> Value() == old(Value())
      ensures ok && Owed(rate, OrderId(f), f.quantity) ==>
                var fee := Fee(rate, OrderId(f), f.quantity);
                && charges == old(charges) + [Charge(f.tradeId, f.brokerId, fee)]
                && Debited(old(ledger.Value()), ledger.Value(), f, fee)
                && brokers == old(brokers) && requests == old(requests)
    {
      CommissionMeans(rate, f);
      if CommissionUnits(rate, f).Ok? && CommissionUnits(rate, f).value.Some? {
        FillDebits(old(Value()), rate, f);
      }
      var q, r := M.Parse(f.quantity), M.Parse(rate);
      if q.TypeError? || r.TypeError? {
        return false;
      }
      var isClose := EndsWith(if f.clientOrderId.Some? then f.clientOrderId.value else [], CLOSE_SUFFIX);
      var commission := Commission(r.value, M.Plain(q.value));
      if !isClose && IsPositive(commission) {
        if !N.Fits(commission) {
          return false;
        }
        var amount := N.Units(commission);
        charges := charges + [Charge(f.tradeId, f.brokerId, amount)];
        var currency := CurrencyOf(ledger.wallets, f.brokerId);
        var walletId := FirstOrNewWallet(f.brokerId);
        Post(walletId, DEBIT, amount, currency, CHARGE, Given(f.tradeId));
      }
      return true;
    }
  }
}
