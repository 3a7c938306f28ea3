/** What the money handlers keep, in every run: a broker's balance is its opening credit plus
    granted deposits minus granted withdrawals minus commissions, and every request and every
    charge has exactly the ledger entry it should have. */
module Conservation {
  import opened Texts
  import opened Canonical
  import opened Ledger
  import opened Funds
  import Decimals
  import Digits
  import PendingActions
  import M = MoneyText
  import N = NumericColumns

  datatype Config = Config(floor: int, rate: Text)

  datatype Label =
    | CreateBroker(brokerId: Text, amount: Text, currency: Text)
    | Submit(kind: RequestKind, brokerId: Text, amount: Text)
    | Grant(id: nat)
    | Refuse(id: nat)
    | RecordFill(fill: Fill)
    | Adjust(payload: Payload)

  function Step(c: Config, t: Tables, l: Label): Tables {
    match l
    case CreateBroker(b, amount, currency) => AfterCreateBroker(t, b, amount, currency)
    case Submit(kind, b, amount) => AfterRequest(t, c.floor, kind, b, amount)
    case Grant(id) => AfterGrant(t, id)
    case Refuse(id) => AfterRefuse(t, id)
    case RecordFill(fill) => AfterFill(t, c.rate, fill)
    case Adjust(payload) => AfterAdjustment(t, payload)
  }

  function Run(c: Config, labels: seq<Label>): Tables {
    if labels == [] then EMPTY
    else Step(c, Run(c, labels[..|labels| - 1]), labels[|labels| - 1])
  }

  // ----- Sums over the tables -----

  function Opening(brokers: map<Text, int>, b: Text): int {
    if b in brokers then brokers[b] else 0
  }

  function GrantedAt(r: Request, kind: RequestKind, b: Text): int {
    if r.status == APPROVED && r.kind == kind && r.brokerId == b then r.amount else 0
  }

  /** The granted requests of one kind and broker, added up. */
  function Granted(requests: seq<Request>, kind: RequestKind, b: Text): int {
    if requests == [] then 0
    else Granted(requests[..|requests| - 1], kind, b) + GrantedAt(requests[|requests| - 1], kind, b)
  }

  function Charged(charges: seq<Charge>, b: Text): int {
    if charges == [] then 0
    else
      var n := |charges| - 1;
      Charged(charges[..n], b) + if charges[n].brokerId == b then charges[n].amount else 0
  }

  function TotalOf(t: Tables, b: Text): int {
    BrokerBalance(t.books.wallets, t.books.entries, b)
  }

  predicate Conserved(t: Tables, b: Text) {
    TotalOf(t, b) == Opening(t.brokers, b) + Granted(t.requests, deposit, b)
                     - Granted(t.requests, withdrawal, b) - Charged(t.charges, b)
  }

  // ----- The invariant -----

  predicate HasId(wallets: seq<Wallet>, id: nat) {
    exists w | w in wallets :: w.walletId == id
  }

  predicate OwnerIs(wallets: seq<Wallet>, id: nat, b: Text) {
    exists w | w in wallets :: w.walletId == id && w.brokerId == b
  }

  predicate DistinctIds(wallets: seq<Wallet>) {
    forall i, j | 0 <= i < j < |wallets| :: wallets[i].walletId != wallets[j].walletId
  }

  predicate BooksOk(books: Books) {
    && DistinctIds(books.wallets)
    && (forall w | w in books.wallets :: w.walletId < books.nextId)
    && (forall e | e in books.entries :: HasId(books.wallets, e.leg.walletId))
    && (forall e | e in books.entries :: e.leg.reference.Generated? ==> e.leg.reference.id < books.nextId)
  }

  /** A granted request has exactly its own entry, on a wallet of its broker; any other has none. */
  predicate RequestPosted(books: Books, r: Request) {
    var legs := Referring(books.entries, r.requestId);
    if r.status == APPROVED then
      |legs| == 1 && legs[0] == RequestLeg(r, legs[0].walletId) && OwnerIs(books.wallets, legs[0].walletId, r.brokerId)
    else legs == []
  }

  predicate RequestOk(books: Books, r: Request) {
    r.requestId < books.nextId && r.amount >= 0 && RequestPosted(books, r)
  }

  predicate RequestsOk(requests: seq<Request>, books: Books) {
    && (forall i, j | 0 <= i < j < |requests| :: requests[i].requestId != requests[j].requestId)
    && (forall r | r in requests :: RequestOk(books, r))
  }

  /** The CHARGE entries, in order. */
  function ChargeLegs(entries: seq<Entry>): seq<Leg> {
    if entries == [] then []
    else
      var n := |entries| - 1;
      ChargeLegs(entries[..n]) + if entries[n].leg.referenceType == CHARGE then [entries[n].leg] else []
  }

  predicate ChargeOk(wallets: seq<Wallet>, leg: Leg, c: Charge) {
    leg.direction == DEBIT && leg.amount == c.amount && leg.reference == Given(c.tradeId)
    && OwnerIs(wallets, leg.walletId, c.brokerId)
  }

  /** Charges and CHARGE entries correspond one to one. */
  predicate ChargesOk(charges: seq<Charge>, books: Books) {
    var legs := ChargeLegs(books.entries);
    |legs| == |charges| && forall i | 0 <= i < |legs| :: ChargeOk(books.wallets, legs[i], charges[i])
  }

  predicate TablesOk(t: Tables) {
    BooksOk(t.books) && RequestsOk(t.requests, t.books) && ChargesOk(t.charges, t.books)
  }

  ghost predicate Inv(t: Tables) {
    TablesOk(t) && forall b :: Conserved(t, b)
  }

  // ----- Balances -----

  lemma {:induction false} BalanceNone(entries: seq<Entry>, id: nat)
    requires forall e | e in entries :: e.leg.walletId != id
    ensures Balance(entries, id) == 0
  {
    if entries != [] {
      BalanceNone(entries[..|entries| - 1], id);
    }
  }

  lemma {:induction false} TotalEntry(wallets: seq<Wallet>, entries: seq<Entry>, e: Entry, b: Text)
    requires DistinctIds(wallets)
    ensures BrokerBalance(wallets, entries + [e], b)
            == BrokerBalance(wallets, entries, b)
               + if OwnerIs(wallets, e.leg.walletId, b) then Signed(e.leg) else 0
  {
    if wallets != [] {
      var n := |wallets| - 1;
      TotalEntry(wallets[..n], entries, e, b);
      BalanceSnoc(entries, e, wallets[n].walletId);
      OwnerSnoc(wallets[..n], wallets[n], e.leg.walletId, b);
      assert wallets == wallets[..n] + [wallets[n]];
      if wallets[n].walletId == e.leg.walletId { OwnerOnce(wallets, e.leg.walletId, b); }
    }
  }

  lemma OwnerSnoc(wallets: seq<Wallet>, w: Wallet, id: nat, b: Text)
    ensures OwnerIs(wallets + [w], id, b) <==> OwnerIs(wallets, id, b) || (w.walletId == id && w.brokerId == b)
  {
    if OwnerIs(wallets, id, b) {
      var v :| v in wallets && v.walletId == id && v.brokerId == b;
      assert v in wallets + [w];
    }
    assert w in wallets + [w];
  }

  /** The last wallet is not counted twice. */
  lemma OwnerOnce(wallets: seq<Wallet>, id: nat, b: Text)
    requires wallets != [] && DistinctIds(wallets) && wallets[|wallets| - 1].walletId == id
    ensures !OwnerIs(wallets[..|wallets| - 1], id, b)
  {
  }

  lemma TotalWallet(books: Books, w: Wallet, b: Text)
    requires BooksOk(books) && w.walletId == books.nextId
    ensures BrokerBalance(books.wallets + [w], books.entries, b) == BrokerBalance(books.wallets, books.entries, b)
  {
    assert (books.wallets + [w])[..|books.wallets|] == books.wallets;
    forall e | e in books.entries ensures e.leg.walletId != w.walletId {
      assert HasId(books.wallets, e.leg.walletId);
    }
    BalanceNone(books.entries, w.walletId);
  }

  /** At most one broker owns a wallet. */
  lemma OneOwner(wallets: seq<Wallet>, id: nat, b: Text, c: Text)
    requires DistinctIds(wallets) && OwnerIs(wallets, id, b) && OwnerIs(wallets, id, c)
    ensures b == c
  {
  }

  // ----- The changes every handler is made of -----

  lemma OwnersStay(wallets: seq<Wallet>, w: Wallet, id: nat, b: Text)
    requires OwnerIs(wallets, id, b)
    ensures OwnerIs(wallets + [w], id, b)
  {
    OwnerSnoc(wallets, w, id, b);
  }

  lemma RequestsStay(requests: seq<Request>, books: Books, books': Books)
    requires RequestsOk(requests, books) && books.nextId <= books'.nextId
    requires forall r | r in requests ::
               Referring(books'.entries, r.requestId) == Referring(books.entries, r.requestId)
    requires books'.wallets == books.wallets || exists w :: books'.wallets == books.wallets + [w]
    ensures RequestsOk(requests, books')
  {
    forall r | r in requests ensures RequestOk(books', r) {
      assert RequestOk(books, r);
      if r.status == APPROVED && books'.wallets != books.wallets {
        var w :| books'.wallets == books.wallets + [w];
        OwnersStay(books.wallets, w, Referring(books.entries, r.requestId)[0].walletId, r.brokerId);
      }
    }
  }

  lemma WalletAdded(t: Tables, w: Wallet)
    requires TablesOk(t) && w.walletId == t.books.nextId
    ensures TablesOk(t.(books := Books(t.books.wallets + [w], t.books.entries, t.books.nextId + 1)))
    ensures OwnerIs(t.books.wallets + [w], w.walletId, w.brokerId)
  {
    var books, books' := t.books, Books(t.books.wallets + [w], t.books.entries, t.books.nextId + 1);
    RequestsStay(t.requests, books, books');
    forall e | e in books'.entries ensures HasId(books'.wallets, e.leg.walletId) {
      var v :| v in books.wallets && v.walletId == e.leg.walletId;
      assert v in books'.wallets;
    }
    var legs := ChargeLegs(books.entries);
    forall i | 0 <= i < |legs| ensures ChargeOk(books'.wallets, legs[i], t.charges[i]) {
      OwnersStay(books.wallets, w, legs[i].walletId, t.charges[i].brokerId);
    }
    assert w in books'.wallets;
  }

  lemma IdsAdded(t: Tables, nextId: nat)
    requires TablesOk(t) && nextId >= t.books.nextId
    ensures TablesOk(t.(books := t.books.(nextId := nextId)))
  {
    RequestsStay(t.requests, t.books, t.books.(nextId := nextId));
  }

  lemma ChargeLegsSnoc(entries: seq<Entry>, e: Entry)
    ensures ChargeLegs(entries + [e])
            == ChargeLegs(entries) + if e.leg.referenceType == CHARGE then [e.leg] else []
  {
    assert (entries + [e])[..|entries|] == entries;
  }

  lemma EntryKeepsBooks(books: Books, leg: Leg, owner: Text)
    requires BooksOk(books) && OwnerIs(books.wallets, leg.walletId, owner)
    requires leg.reference.Generated? ==> leg.reference.id < books.nextId
    ensures BooksOk(WithEntry(books, leg))
  {
    assert HasId(books.wallets, leg.walletId);
  }

  /** An entry moves its own broker's balance by its signed amount, and no other broker's. */
  lemma EntryMoves(books: Books, leg: Leg, owner: Text, b: Text)
    requires BooksOk(books) && OwnerIs(books.wallets, leg.walletId, owner)
    ensures var after := WithEntry(books, leg);
            BrokerBalance(after.wallets, after.entries, b)
            == BrokerBalance(books.wallets, books.entries, b) + if b == owner then Signed(leg) else 0
  {
    TotalEntry(books.wallets, books.entries, Entry(books.nextId, leg), b);
    if OwnerIs(books.wallets, leg.walletId, b) {
      OneOwner(books.wallets, leg.walletId, owner, b);
    }
  }

  /** An entry that is neither a commission nor a request's. */
  lemma EntryAdded(t: Tables, leg: Leg, owner: Text)
    requires TablesOk(t) && OwnerIs(t.books.wallets, leg.walletId, owner) && leg.referenceType != CHARGE
    requires leg.reference.Generated? ==>
               leg.reference.id < t.books.nextId && forall r | r in t.requests :: r.requestId != leg.reference.id
    ensures TablesOk(t.(books := WithEntry(t.books, leg)))
  {
    var e := Entry(t.books.nextId, leg);
    EntryKeepsBooks(t.books, leg, owner);
    ChargeLegsSnoc(t.books.entries, e);
    forall r | r in t.requests
      ensures Referring(t.books.entries + [e], r.requestId) == Referring(t.books.entries, r.requestId)
    {
      ReferringSnoc(t.books.entries, e, r.requestId);
    }
    RequestsStay(t.requests, t.books, WithEntry(t.books, leg));
  }

  /** A commission: the entry and its charge. */
  lemma ChargeAdded(t: Tables, leg: Leg, c: Charge)
    requires TablesOk(t) && leg.referenceType == CHARGE && ChargeOk(t.books.wallets, leg, c)
    ensures TablesOk(t.(books := WithEntry(t.books, leg), charges := t.charges + [c]))
  {
    var e := Entry(t.books.nextId, leg);
    EntryKeepsBooks(t.books, leg, c.brokerId);
    ChargeLegsSnoc(t.books.entries, e);
    forall r | r in t.requests
      ensures Referring(t.books.entries + [e], r.requestId) == Referring(t.books.entries, r.requestId)
    {
      ReferringSnoc(t.books.entries, e, r.requestId);
    }
    RequestsStay(t.requests, t.books, WithEntry(t.books, leg));
  }

  /** A request is decided; if it is granted, its entry comes with it. */
  lemma RequestGranted(t: Tables, i: nat, walletId: nat)
    requires TablesOk(t) && i < |t.requests| && t.requests[i].status == PENDING
    requires OwnerIs(t.books.wallets, walletId, t.requests[i].brokerId)
    ensures var r := t.requests[i];
            TablesOk(t.(books := WithEntry(t.books, RequestLeg(r, walletId)),
                        requests := t.requests[i := r.(status := APPROVED)]))
  {
    var r := t.requests[i];
    assert r in t.requests;
    var leg := RequestLeg(r, walletId);
    var e := Entry(t.books.nextId, leg);
    var books' := WithEntry(t.books, leg);
    EntryKeepsBooks(t.books, leg, r.brokerId);
    ChargeLegsSnoc(t.books.entries, e);
    var requests' := t.requests[i := r.(status := APPROVED)];
    forall q | q in requests' ensures RequestOk(books', q) {
      var j :| 0 <= j < |requests'| && requests'[j] == q;
      ReferringSnoc(t.books.entries, e, q.requestId);
      assert t.requests[j] in t.requests && RequestOk(t.books, t.requests[j]);
    }
  }

  lemma RequestRefused(t: Tables, i: nat)
    requires TablesOk(t) && i < |t.requests| && t.requests[i].status == PENDING
    ensures TablesOk(t.(requests := t.requests[i := t.requests[i].(status := REJECTED)]))
  {
    var requests' := t.requests[i := t.requests[i].(status := REJECTED)];
    forall q | q in requests' ensures RequestOk(t.books, q) {
      var j :| 0 <= j < |requests'| && requests'[j] == q;
      assert t.requests[j] in t.requests && RequestOk(t.books, t.requests[j]);
    }
  }

  lemma RequestAdded(t: Tables, r: Request)
    requires TablesOk(t) && r.requestId == t.books.nextId && r.status == PENDING && r.amount >= 0
    ensures TablesOk(t.(books := t.books.(nextId := t.books.nextId + 1), requests := t.requests + [r]))
  {
    var books' := t.books.(nextId := t.books.nextId + 1);
    RequestsStay(t.requests, t.books, books');
    ReferringNone(t.books.entries, r.requestId);
    assert RequestOk(books', r);
    forall q | q in t.requests ensures q.requestId != r.requestId {
      assert RequestOk(t.books, q);
    }
  }

  // ----- Wallets -----

  /** The tables once the broker has a wallet in the currency. */
  function WalletReady(t: Tables, b: Text, currency: Text): Tables {
    t.(books := WithWallet(t.books, b, currency))
  }

  lemma FoundWallet(t: Tables, b: Text, currency: Text)
    requires TablesOk(t)
    ensures var t' := WalletReady(t, b, currency);
            TablesOk(t') && OwnerIs(t'.books.wallets, WalletIdFor(t.books, b, currency), b)
  {
    if HasWallet(t.books, b, currency) {
      assert t.books.wallets[FindWallet(t.books.wallets, b, currency)] in t.books.wallets;
    } else {
      WalletAdded(t, Wallet(t.books.nextId, b, currency));
    }
  }

  lemma FoundWalletTotal(t: Tables, b: Text, currency: Text, x: Text)
    requires TablesOk(t)
    ensures TotalOf(WalletReady(t, b, currency), x) == TotalOf(t, x)
  {
    TotalWallet(t.books, Wallet(t.books.nextId, b, currency), x);
  }

  function FirstReady(t: Tables, b: Text): Tables {
    t.(books := WithFirstWallet(t.books, b))
  }

  lemma FirstFound(t: Tables, b: Text)
    requires TablesOk(t)
    ensures var t' := FirstReady(t, b);
            TablesOk(t') && OwnerIs(t'.books.wallets, FirstWalletId(t.books, b), b)
  {
    var i := FirstWallet(t.books.wallets, b);
    if i < |t.books.wallets| {
      assert t.books.wallets[i] in t.books.wallets;
    } else {
      WalletAdded(t, Wallet(t.books.nextId, b, USD));
    }
  }

  lemma FirstFoundTotal(t: Tables, b: Text, x: Text)
    requires TablesOk(t)
    ensures TotalOf(FirstReady(t, b), x) == TotalOf(t, x)
  {
    TotalWallet(t.books, Wallet(t.books.nextId, b, USD), x);
  }

  // ----- Each handler keeps the invariant -----

  lemma WalletKeepsBooks(books: Books, w: Wallet)
    requires BooksOk(books) && w.walletId == books.nextId
    ensures BooksOk(Books(books.wallets + [w], books.entries, books.nextId + 1))
    ensures OwnerIs(books.wallets + [w], w.walletId, w.brokerId)
  {
    forall e | e in books.entries ensures HasId(books.wallets + [w], e.leg.walletId) {
      var v :| v in books.wallets && v.walletId == e.leg.walletId;
      assert v in books.wallets + [w];
    }
    assert w in books.wallets + [w];
  }

  lemma FundedTotal(books: Books, w: Wallet, leg: Leg, x: Text)
    requires BooksOk(books) && w.walletId == books.nextId && leg.walletId == w.walletId
    ensures var after := WithEntry(Books(books.wallets + [w], books.entries, books.nextId + 1), leg);
            BrokerBalance(after.wallets, after.entries, x)
            == BrokerBalance(books.wallets, books.entries, x) + if x == w.brokerId then Signed(leg) else 0
  {
    TotalWallet(books, w, x);
    WalletKeepsBooks(books, w);
    EntryMoves(Books(books.wallets + [w], books.entries, books.nextId + 1), leg, w.brokerId, x);
  }

  lemma FundedConserves(t: Tables, w: Wallet, units: int, x: Text)
    requires BooksOk(t.books) && Conserved(t, x) && w.walletId == t.books.nextId && w.brokerId !in t.brokers
    ensures Conserved(WithBroker(t, w.brokerId, units, w.currency), x)
  {
    FundedTotal(t.books, w, Leg(w.walletId, CREDIT, units, w.currency, DEPOSIT, Given(w.brokerId)), x);
  }

  lemma FundedTables(t: Tables, w: Wallet, units: int)
    requires TablesOk(t) && w.walletId == t.books.nextId
    ensures TablesOk(WithBroker(t, w.brokerId, units, w.currency))
  {
    WalletAdded(t, w);
    EntryAdded(t.(books := Books(t.books.wallets + [w], t.books.entries, t.books.nextId + 1)),
               Leg(w.walletId, CREDIT, units, w.currency, DEPOSIT, Given(w.brokerId)), w.brokerId);
  }

  lemma BrokerFunded(t: Tables, w: Wallet, units: int)
    requires Inv(t) && w.walletId == t.books.nextId && w.brokerId !in t.brokers
    ensures Inv(WithBroker(t, w.brokerId, units, w.currency))
  {
    FundedTables(t, w, units);
    forall x ensures Conserved(WithBroker(t, w.brokerId, units, w.currency), x) {
      FundedConserves(t, w, units, x);
    }
  }

  lemma CreateKeepsInv(t: Tables, b: Text, amount: Text, currency: Text)
    requires Inv(t)
    ensures Inv(AfterCreateBroker(t, b, amount, currency))
  {
    if CreateReply(t, b, amount) == PendingActions.Done {
      BrokerFunded(t, Wallet(t.books.nextId, b, currency), RequestUnits(amount).value);
    }
  }

  lemma UnitsNonNegative(amount: Text)
    requires RequestUnits(amount).Ok?
    ensures RequestUnits(amount).value >= 0
  {
    PendingActions.SmallAmount(amount);
    N.UnitsSign(M.Parse(amount).value);
  }

  lemma SubmitKeepsInv(t: Tables, floor: int, kind: RequestKind, b: Text, amount: Text)
    requires Inv(t)
    ensures Inv(AfterRequest(t, floor, kind, b, amount))
  {
    if RequestReply(t, floor, kind, b, amount) == PendingActions.Done {
      UnitsNonNegative(amount);
      var r := Request(t.books.nextId, kind, b, RequestUnits(amount).value, CurrencyOf(t.books.wallets, b), PENDING);
      RequestAdded(t, r);
      var after := AfterRequest(t, floor, kind, b, amount);
      forall x ensures Conserved(after, x) {
        assert Conserved(t, x);
        assert (t.requests + [r])[..|t.requests|] == t.requests;
      }
    }
  }

  lemma {:induction false} GrantedUpdate(requests: seq<Request>, i: nat, r: Request, kind: RequestKind, b: Text)
    requires i < |requests|
    ensures Granted(requests[i := r], kind, b)
            == Granted(requests, kind, b) - GrantedAt(requests[i], kind, b) + GrantedAt(r, kind, b)
  {
    var n := |requests| - 1;
    if i == n {
      assert requests[i := r][..n] == requests[..n];
    } else {
      GrantedUpdate(requests[..n], i, r, kind, b);
      assert requests[i := r][..n] == requests[..n][i := r];
    }
  }

  lemma GrantMoves(t: Tables, r: Request, x: Text)
    requires TablesOk(t)
    ensures var after := WithEntry(WithWallet(t.books, r.brokerId, r.currency), RequestLeg(r, WalletOf(t, r)));
            BrokerBalance(after.wallets, after.entries, x)
            == TotalOf(t, x) + if x == r.brokerId then Signed(RequestLeg(r, 0)) else 0
  {
    FoundWallet(t, r.brokerId, r.currency);
    FoundWalletTotal(t, r.brokerId, r.currency, x);
    EntryMoves(WithWallet(t.books, r.brokerId, r.currency), RequestLeg(r, WalletOf(t, r)), r.brokerId, x);
  }

  lemma GrantCounts(requests: seq<Request>, i: nat, x: Text)
    requires i < |requests| && requests[i].status == PENDING
    ensures var r := requests[i]; var after := requests[i := r.(status := APPROVED)];
            Granted(after, deposit, x) - Granted(after, withdrawal, x)
            == Granted(requests, deposit, x) - Granted(requests, withdrawal, x)
               + if x == r.brokerId then Signed(RequestLeg(r, 0)) else 0
  {
    GrantedUpdate(requests, i, requests[i].(status := APPROVED), deposit, x);
    GrantedUpdate(requests, i, requests[i].(status := APPROVED), withdrawal, x);
  }

  lemma GrantConserves(t: Tables, i: nat, x: Text)
    requires TablesOk(t) && Conserved(t, x) && i < |t.requests| && t.requests[i].status == PENDING
    ensures var r := t.requests[i];
            Conserved(t.(books := WithEntry(WithWallet(t.books, r.brokerId, r.currency), RequestLeg(r, WalletOf(t, r))),
                         requests := t.requests[i := r.(status := APPROVED)]), x)
  {
    GrantMoves(t, t.requests[i], x);
    GrantCounts(t.requests, i, x);
  }

  lemma GrantKeepsInv(t: Tables, id: nat)
    requires Inv(t)
    ensures Inv(AfterGrant(t, id))
  {
    if GrantReply(t, id) == PendingActions.Done {
      var i := FindRequest(t.requests, id);
      var r := t.requests[i];
      FoundWallet(t, r.brokerId, r.currency);
      RequestGranted(WalletReady(t, r.brokerId, r.currency), i, WalletOf(t, r));
      forall x ensures Conserved(AfterGrant(t, id), x) {
        GrantConserves(t, i, x);
      }
    }
  }

  lemma RefuseKeepsInv(t: Tables, id: nat)
    requires Inv(t)
    ensures Inv(AfterRefuse(t, id))
  {
    if DecideReply(t, id) == PendingActions.Done {
      var i := FindRequest(t.requests, id);
      RequestRefused(t, i);
      forall x ensures Conserved(AfterRefuse(t, id), x) {
        assert Conserved(t, x);
        GrantedUpdate(t.requests, i, t.requests[i].(status := REJECTED), deposit, x);
        GrantedUpdate(t.requests, i, t.requests[i].(status := REJECTED), withdrawal, x);
      }
    }
  }

  lemma ChargeKeepsInv(t: Tables, f: Fill, amount: int, leg: Leg)
    requires Inv(t)
    requires leg == Leg(FirstWalletId(t.books, f.brokerId), DEBIT, amount, CurrencyOf(t.books.wallets, f.brokerId),
                        CHARGE, Given(f.tradeId))
    ensures Inv(t.(books := WithEntry(WithFirstWallet(t.books, f.brokerId), leg),
                   charges := t.charges + [Charge(f.tradeId, f.brokerId, amount)]))
  {
    var ready, c := FirstReady(t, f.brokerId), Charge(f.tradeId, f.brokerId, amount);
    FirstFound(t, f.brokerId);
    ChargeAdded(ready, leg, c);
    var after := t.(books := WithEntry(ready.books, leg), charges := t.charges + [c]);
    forall x ensures Conserved(after, x) {
      assert Conserved(t, x);
      FirstFoundTotal(t, f.brokerId, x);
      EntryMoves(ready.books, leg, f.brokerId, x);
      assert (t.charges + [c])[..|t.charges|] == t.charges;
    }
  }

  lemma FillKeepsInv(t: Tables, rate: Text, f: Fill)
    requires Inv(t)
    ensures Inv(AfterFill(t, rate, f))
  {
    var units := CommissionUnits(rate, f);
    if units.Ok? && units.value.Some? {
      var amount := units.value.value;
      ChargeKeepsInv(t, f, amount, Leg(FirstWalletId(t.books, f.brokerId), DEBIT, amount,
                                       CurrencyOf(t.books.wallets, f.brokerId), CHARGE, Given(f.tradeId)));
    }
  }

  lemma AdjustKeepsInv(t: Tables, p: Payload)
    requires Inv(t)
    ensures Inv(AfterAdjustment(t, p))
  {
    if PayloadUnits(p).Ok? {
      PairKeepsInv(t, p, PayloadUnits(p).value);
    }
  }

  lemma PairAdded(t: Tables, legA: Leg, legB: Leg, owner: Text)
    requires TablesOk(t) && OwnerIs(t.books.wallets, legA.walletId, owner)
    requires legA.referenceType == ADJUSTMENT && legA.reference.Generated? && legA.reference.id < t.books.nextId
    requires forall r | r in t.requests :: r.requestId != legA.reference.id
    requires legB == legA.(direction := Opposite(legA.direction))
    ensures TablesOk(t.(books := WithEntry(WithEntry(t.books, legA), legB)))
  {
    var t' := t.(books := WithEntry(t.books, legA));
    EntryAdded(t, legA, owner);
    EntryAdded(t', legB, owner);
  }

  lemma PairNeutral(books: Books, legA: Leg, legB: Leg, owner: Text, x: Text)
    requires BooksOk(books) && BooksOk(WithEntry(books, legA)) && OwnerIs(books.wallets, legA.walletId, owner)
    requires legB == legA.(direction := Opposite(legA.direction))
    ensures var after := WithEntry(WithEntry(books, legA), legB);
            BrokerBalance(after.wallets, after.entries, x) == BrokerBalance(books.wallets, books.entries, x)
  {
    EntryMoves(books, legA, owner, x);
    EntryMoves(WithEntry(books, legA), legB, owner, x);
  }

  /** The wallet is found and the reference is drawn; nothing is posted yet. */
  function PairReady(t: Tables, p: Payload): Tables {
    var t1 := WalletReady(t, p.brokerId, p.currency);
    t1.(books := t1.books.(nextId := t1.books.nextId + 1))
  }

  lemma PairReadyOk(t: Tables, p: Payload)
    requires TablesOk(t)
    ensures var u, a := PairReady(t, p), AdjustmentOf(t.books, p);
            && TablesOk(u) && OwnerIs(u.books.wallets, a.walletId, p.brokerId) && a.referenceId < u.books.nextId
            && forall r | r in t.requests :: r.requestId != a.referenceId
  {
    FoundWallet(t, p.brokerId, p.currency);
    IdsAdded(WalletReady(t, p.brokerId, p.currency), WalletReady(t, p.brokerId, p.currency).books.nextId + 1);
    assert forall r | r in t.requests :: RequestOk(t.books, r);
  }

  /** The pair is posted on what `PairReady` leaves. */
  function PairPosted(t: Tables, legA: Leg, legB: Leg): Tables {
    t.(books := WithEntry(WithEntry(t.books, legA), legB))
  }

  function PairLeg(t: Tables, p: Payload, direction: Direction, amount: int): Leg {
    var a := AdjustmentOf(t.books, p);
    AdjustLeg(p, a.walletId, direction, amount, a.referenceId)
  }

  lemma PairIsPosted(t: Tables, p: Payload, amount: int)
    ensures t.(books := Adjusted(t.books, p, amount))
            == PairPosted(PairReady(t, p), PairLeg(t, p, p.direction, amount),
                          PairLeg(t, p, Opposite(p.direction), amount))
  {
  }

  lemma PairTables(t: Tables, p: Payload, legA: Leg, legB: Leg)
    requires TablesOk(t) && legB == legA.(direction := Opposite(legA.direction)) && legA.referenceType == ADJUSTMENT
    requires legA.walletId == AdjustmentOf(t.books, p).walletId
    requires legA.reference == Generated(AdjustmentOf(t.books, p).referenceId)
    ensures TablesOk(PairPosted(PairReady(t, p), legA, legB))
  {
    PairReadyOk(t, p);
    PairAdded(PairReady(t, p), legA, legB, p.brokerId);
  }

  lemma PairTotal(t: Tables, p: Payload, legA: Leg, legB: Leg, x: Text)
    requires TablesOk(t) && legB == legA.(direction := Opposite(legA.direction))
    requires legA.walletId == AdjustmentOf(t.books, p).walletId
    requires legA.reference == Generated(AdjustmentOf(t.books, p).referenceId)
    ensures TotalOf(PairPosted(PairReady(t, p), legA, legB), x) == TotalOf(t, x)
  {
    PairReadyOk(t, p);
    FoundWalletTotal(t, p.brokerId, p.currency, x);
    EntryKeepsBooks(PairReady(t, p).books, legA, p.brokerId);
    PairNeutral(PairReady(t, p).books, legA, legB, p.brokerId, x);
  }

  lemma PairKeepsInv(t: Tables, p: Payload, amount: int)
    requires Inv(t)
    ensures Inv(t.(books := Adjusted(t.books, p, amount)))
  {
    var legA, legB := PairLeg(t, p, p.direction, amount), PairLeg(t, p, Opposite(p.direction), amount);
    PairIsPosted(t, p, amount);
    PairTables(t, p, legA, legB);
    forall x ensures Conserved(PairPosted(PairReady(t, p), legA, legB), x) {
      assert Conserved(t, x);
      PairTotal(t, p, legA, legB, x);
    }
  }

  lemma StepKeepsInv(c: Config, t: Tables, l: Label)
    requires Inv(t)
    ensures Inv(Step(c, t, l))
  {
    match l
    case CreateBroker(b, amount, currency) => CreateKeepsInv(t, b, amount, currency);
    case Submit(kind, b, amount) => SubmitKeepsInv(t, c.floor, kind, b, amount);
    case Grant(id) => GrantKeepsInv(t, id);
    case Refuse(id) => RefuseKeepsInv(t, id);
    case RecordFill(fill) => FillKeepsInv(t, c.rate, fill);
    case Adjust(payload) => AdjustKeepsInv(t, payload);
  }

  lemma {:induction false} RunKeepsInv(c: Config, labels: seq<Label>)
    ensures Inv(Run(c, labels))
  {
    if labels != [] {
      RunKeepsInv(c, labels[..|labels| - 1]);
      StepKeepsInv(c, Run(c, labels[..|labels| - 1]), labels[|labels| - 1]);
    }
  }

  // ----- Main results -----

  /** In every run, for every broker: what the wallets hold together is the opening credit plus
      the granted deposits minus the granted withdrawals minus the commissions. */
  lemma BalanceConserved(c: Config, labels: seq<Label>, b: Text)
    ensures Conserved(Run(c, labels), b)
  {
    RunKeepsInv(c, labels);
  }

  /** Every request has at most one ledger entry, and has it exactly when it was granted: its own
      amount, in its own direction, on a wallet of its own broker. */
  lemma RequestsPostOnce(c: Config, labels: seq<Label>, r: Request)
    requires r in Run(c, labels).requests
    ensures RequestPosted(Run(c, labels).books, r)
  {
    RunKeepsInv(c, labels);
    assert RequestOk(Run(c, labels).books, r);
  }

  /** The amounts of CHARGE entries, added up. */
  function ChargeDebits(entries: seq<Entry>): int {
    if entries == [] then 0
    else
      var n := |entries| - 1;
      ChargeDebits(entries[..n]) + if entries[n].leg.referenceType == CHARGE then entries[n].leg.amount else 0
  }

  function SumAmounts(legs: seq<Leg>): int {
    if legs == [] then 0 else SumAmounts(legs[..|legs| - 1]) + legs[|legs| - 1].amount
  }

  function AllCharged(charges: seq<Charge>): int {
    if charges == [] then 0 else AllCharged(charges[..|charges| - 1]) + charges[|charges| - 1].amount
  }

  lemma {:induction false} ChargeDebitsSum(entries: seq<Entry>)
    ensures ChargeDebits(entries) == SumAmounts(ChargeLegs(entries))
  {
    if entries != [] {
      var n := |entries| - 1;
      ChargeDebitsSum(entries[..n]);
      var legs := ChargeLegs(entries[..n]);
      assert legs + [] == legs;
      assert (legs + [entries[n].leg])[..|legs|] == legs;
    }
  }

  lemma {:induction false} SumsEqual(legs: seq<Leg>, charges: seq<Charge>)
    requires |legs| == |charges| && forall i | 0 <= i < |legs| :: legs[i].amount == charges[i].amount
    ensures SumAmounts(legs) == AllCharged(charges)
  {
    if legs != [] {
      SumsEqual(legs[..|legs| - 1], charges[..|charges| - 1]);
    }
  }

  /** The charges that fills were given and the debits posted for them match one to one, so they
      add up to the same. */
  lemma ChargesMatchDebits(c: Config, labels: seq<Label>)
    ensures var t := Run(c, labels);
            ChargesOk(t.charges, t.books) && AllCharged(t.charges) == ChargeDebits(t.books.entries)
  {
    RunKeepsInv(c, labels);
    var t := Run(c, labels);
    ChargeDebitsSum(t.books.entries);
    SumsEqual(ChargeLegs(t.books.entries), t.charges);
  }

  // ----- Withdrawals and the floor -----

  /** Granting a withdrawal takes its amount from a wallet that covers it. */
  lemma GrantCovers(t: Tables, id: nat)
    requires GrantReply(t, id) == PendingActions.Done && t.requests[FindRequest(t.requests, id)].kind == withdrawal
    ensures var r := t.requests[FindRequest(t.requests, id)]; var w := WalletOf(t, r);
            var after := Balance(AfterGrant(t, id).books.entries, w);
            after == Balance(t.books.entries, w) - r.amount && after >= 0
  {
    var r := t.requests[FindRequest(t.requests, id)];
    var b := WithWallet(t.books, r.brokerId, r.currency);
    BalanceSnoc(b.entries, Entry(b.nextId, RequestLeg(r, WalletOf(t, r))), WalletOf(t, r));
  }

  /** Credits only grow, and a request keeps everything but its status. */
  predicate Grows(t: Tables, u: Tables, b: Text) {
    && Opening(t.brokers, b) <= Opening(u.brokers, b)
    && Granted(t.requests, deposit, b) <= Granted(u.requests, deposit, b)
    && |t.requests| <= |u.requests|
    && forall i | 0 <= i < |t.requests| :: u.requests[i] == t.requests[i].(status := u.requests[i].status)
  }

  lemma GrowsFurther(t: Tables, u: Tables, v: Tables, b: Text)
    requires Grows(t, u, b) && Grows(u, v, b)
    ensures Grows(t, v, b)
  {
    forall i | 0 <= i < |t.requests| ensures v.requests[i] == t.requests[i].(status := v.requests[i].status) {
      assert u.requests[i] == t.requests[i].(status := u.requests[i].status);
    }
  }

  lemma SubmitGrows(t: Tables, floor: int, kind: RequestKind, broker: Text, amount: Text, b: Text)
    ensures Grows(t, AfterRequest(t, floor, kind, broker, amount), b)
  {
    var u := AfterRequest(t, floor, kind, broker, amount);
    if u != t {
      assert u.requests[..|t.requests|] == t.requests;
    }
  }

  lemma GrantGrows(t: Tables, id: nat, b: Text)
    requires TablesOk(t)
    ensures Grows(t, AfterGrant(t, id), b) && Grows(t, AfterRefuse(t, id), b)
  {
    var i := FindRequest(t.requests, id);
    if DecideReply(t, id) == PendingActions.Done {
      assert RequestOk(t.books, t.requests[i]);
      GrantedUpdate(t.requests, i, t.requests[i].(status := APPROVED), deposit, b);
      GrantedUpdate(t.requests, i, t.requests[i].(status := REJECTED), deposit, b);
    }
  }

  lemma CreateGrows(t: Tables, broker: Text, amount: Text, currency: Text, b: Text)
    ensures Grows(t, AfterCreateBroker(t, broker, amount, currency), b)
  {
    if CreateReply(t, broker, amount) == PendingActions.Done {
      UnitsNonNegative(amount);
    }
  }

  lemma StepGrows(c: Config, t: Tables, l: Label, b: Text)
    requires TablesOk(t)
    ensures Grows(t, Step(c, t, l), b)
  {
    match l
    case CreateBroker(broker, amount, currency) => CreateGrows(t, broker, amount, currency, b);
    case Submit(kind, broker, amount) => SubmitGrows(t, c.floor, kind, broker, amount, b);
    case Grant(id) => GrantGrows(t, id, b);
    case Refuse(id) => GrantGrows(t, id, b);
    case RecordFill(fill) =>
    case Adjust(payload) =>
  }

  lemma RunSnoc(c: Config, labels: seq<Label>, l: Label)
    ensures Run(c, labels + [l]) == Step(c, Run(c, labels), l)
  {
    assert (labels + [l])[..|labels|] == labels;
  }

  lemma {:induction false} RunGrows(c: Config, labels: seq<Label>, more: seq<Label>, b: Text)
    ensures Grows(Run(c, labels), Run(c, labels + more), b)
  {
    if more == [] {
      assert labels + more == labels;
    } else {
      var n := |more| - 1;
      var all := labels + more[..n];
      RunGrows(c, labels, more[..n], b);
      RunKeepsInv(c, all);
      StepGrows(c, Run(c, all), more[n], b);
      RunSnoc(c, all, more[n]);
      GrowsFurther(Run(c, labels), Run(c, all), Step(c, Run(c, all), more[n]), b);
      assert labels + more == all + [more[n]];
    }
  }

  /** Debits of the broker between two states: granted withdrawals and commissions. */
  function DebitsBetween(t: Tables, u: Tables, b: Text): int {
    Granted(u.requests, withdrawal, b) - Granted(t.requests, withdrawal, b)
    + Charged(u.charges, b) - Charged(t.charges, b)
  }

  lemma SubmitQuiet(t: Tables, floor: int, b: Text, amount: Text)
    requires RequestReply(t, floor, withdrawal, b, amount) == PendingActions.Done
    ensures var u := AfterRequest(t, floor, withdrawal, b, amount); var n := |t.requests|;
            && TotalOf(u, b) == TotalOf(t, b) && DebitsBetween(t, u, b) == 0
            && u.requests[n].requestId == t.books.nextId && u.requests[n].kind == withdrawal
            && u.requests[n].brokerId == b && u.requests[n].amount == RequestUnits(amount).value
  {
    var u := AfterRequest(t, floor, withdrawal, b, amount);
    assert u.requests[..|t.requests|] == t.requests;
  }

  lemma FindsRequest(t: Tables, n: nat)
    requires TablesOk(t) && n < |t.requests|
    ensures FindRequest(t.requests, t.requests[n].requestId) == n
  {
  }

  lemma GrantedTotal(t: Tables, n: nat, id: nat)
    requires Inv(t) && n < |t.requests| && t.requests[n].requestId == id && t.requests[n].kind == withdrawal
    requires GrantReply(t, id) == PendingActions.Done
    ensures Inv(AfterGrant(t, id))
    ensures AfterGrant(t, id).requests == t.requests[n := t.requests[n].(status := APPROVED)]
    ensures TotalOf(AfterGrant(t, id), t.requests[n].brokerId) == TotalOf(t, t.requests[n].brokerId) - t.requests[n].amount
  {
    FindsRequest(t, n);
    GrantMoves(t, t.requests[n], t.requests[n].brokerId);
    GrantKeepsInv(t, id);
  }

  /** Credits of the broker between two states: its opening and granted deposits. */
  function CreditsBetween(t: Tables, u: Tables, b: Text): int {
    Opening(u.brokers, b) - Opening(t.brokers, b)
    + Granted(u.requests, deposit, b) - Granted(t.requests, deposit, b)
  }

  lemma FloorAfterGrant(c: Config, t: Tables, asked: Tables, u: Tables, b: Text, amount: Text)
    requires Inv(t) && Inv(u) && Grows(asked, u, b)
    requires RequestReply(t, c.floor, withdrawal, b, amount) == PendingActions.Done
    requires asked == AfterRequest(t, c.floor, withdrawal, b, amount)
    requires GrantReply(u, t.books.nextId) == PendingActions.Done
    ensures TotalOf(AfterGrant(u, t.books.nextId), b)
            == TotalOf(t, b) + CreditsBetween(t, u, b) - DebitsBetween(t, u, b) - RequestUnits(amount).value
  {
    var n := |t.requests|;
    SubmitQuiet(t, c.floor, b, amount);
    assert u.requests[n] == asked.requests[n].(status := u.requests[n].status);
    GrantedTotal(u, n, t.books.nextId);
    assert Conserved(t, b) && Conserved(u, b);
  }

  /** A withdrawal is accepted, anything else happens, and then it is granted. */
  function AskedThen(labels: seq<Label>, b: Text, amount: Text, more: seq<Label>): seq<Label> {
    labels + [Submit(withdrawal, b, amount)] + more
  }

  /** The floor over whole runs: whatever happens between accepting and granting a withdrawal, the
      broker is left at or above the floor if and only if the amount, with the other debits in
      between, is within what the request was measured against and the credits in between. */
  lemma FloorExactly(c: Config, labels: seq<Label>, b: Text, amount: Text, more: seq<Label>)
    requires RequestReply(Run(c, labels), c.floor, withdrawal, b, amount) == PendingActions.Done
    requires GrantReply(Run(c, AskedThen(labels, b, amount, more)), Run(c, labels).books.nextId) == PendingActions.Done
    ensures var t, u := Run(c, labels), Run(c, AskedThen(labels, b, amount, more));
            TotalOf(Step(c, u, Grant(t.books.nextId)), b) >= c.floor
            <==> RequestUnits(amount).value + DebitsBetween(t, u, b) <= TotalOf(t, b) - c.floor + CreditsBetween(t, u, b)
  {
    var asked := labels + [Submit(withdrawal, b, amount)];
    RunSnoc(c, labels, Submit(withdrawal, b, amount));
    RunGrows(c, asked, more, b);
    RunKeepsInv(c, labels);
    RunKeepsInv(c, asked + more);
    FloorAfterGrant(c, Run(c, labels), Run(c, asked), Run(c, asked + more), b, amount);
  }

  lemma CreditsOnly(t: Tables, u: Tables, b: Text)
    requires Inv(t) && Inv(u)
    ensures TotalOf(u, b) == TotalOf(t, b) + CreditsBetween(t, u, b) - DebitsBetween(t, u, b)
  {
    assert Conserved(t, b) && Conserved(u, b);
  }

  lemma FloorQuiet(t: Tables, u: Tables, floor: int, b: Text, amount: Text)
    requires Inv(t) && Inv(u) && Grows(t, u, b) && DebitsBetween(t, u, b) == 0
    requires RequestReply(t, floor, withdrawal, b, amount) == PendingActions.Done
    ensures RequestUnits(amount).value <= TotalOf(t, b) - floor + CreditsBetween(t, u, b)
            <==> RequestUnits(amount).value > 0 || TotalOf(u, b) >= floor
  {
    UnitsNonNegative(amount);
    CreditsOnly(t, u, b);
  }

  /** With no other debit in between, it is left there exactly if the amount was positive or it was
      there anyhow: a request for nothing is accepted also below the floor. */
  lemma FloorKept(c: Config, labels: seq<Label>, b: Text, amount: Text, more: seq<Label>)
    requires RequestReply(Run(c, labels), c.floor, withdrawal, b, amount) == PendingActions.Done
    requires GrantReply(Run(c, AskedThen(labels, b, amount, more)), Run(c, labels).books.nextId) == PendingActions.Done
    requires DebitsBetween(Run(c, labels), Run(c, AskedThen(labels, b, amount, more)), b) == 0
    ensures var t, u := Run(c, labels), Run(c, AskedThen(labels, b, amount, more));
            TotalOf(Step(c, u, Grant(t.books.nextId)), b) >= c.floor
            <==> RequestUnits(amount).value > 0 || TotalOf(u, b) >= c.floor
  {
    var all := AskedThen(labels, b, amount, more);
    FloorExactly(c, labels, b, amount, more);
    RunKeepsInv(c, labels);
    RunKeepsInv(c, all);
    RunGrows(c, labels, [Submit(withdrawal, b, amount)] + more, b);
    assert labels + ([Submit(withdrawal, b, amount)] + more) == all;
    FloorQuiet(Run(c, labels), Run(c, all), c.floor, b, amount);
  }

  /** The tables after two withdrawals were asked for. */
  function BothAsked(t: Tables, floor: int, b: Text, first: Text, second: Text): Tables {
    AfterRequest(AfterRequest(t, floor, withdrawal, b, first), floor, withdrawal, b, second)
  }

  lemma BothAskedFacts(t: Tables, floor: int, b: Text, first: Text, second: Text)
    requires Inv(t) && RequestReply(t, floor, withdrawal, b, first) == PendingActions.Done
    requires RequestReply(AfterRequest(t, floor, withdrawal, b, first), floor, withdrawal, b, second)
             == PendingActions.Done
    ensures var u := BothAsked(t, floor, b, first, second); var n := |t.requests|; var id := t.books.nextId;
            && Inv(u) && TotalOf(u, b) == TotalOf(t, b) && |u.requests| == n + 2
            && u.requests[n] == Request(id, withdrawal, b, RequestUnits(first).value, u.requests[n].currency, PENDING)
            && u.requests[n + 1]
               == Request(id + 1, withdrawal, b, RequestUnits(second).value, u.requests[n + 1].currency, PENDING)
  {
    var t1 := AfterRequest(t, floor, withdrawal, b, first);
    SubmitQuiet(t, floor, b, first);
    SubmitQuiet(t1, floor, b, second);
    SubmitKeepsInv(t, floor, withdrawal, b, first);
    SubmitKeepsInv(t1, floor, withdrawal, b, second);
  }

  /** Two withdrawals are asked for and granted, each handler replying that it is done. */
  predicate BothDone(t: Tables, floor: int, b: Text, first: Text, second: Text) {
    var u, id := BothAsked(t, floor, b, first, second), t.books.nextId;
    && RequestReply(t, floor, withdrawal, b, first) == PendingActions.Done
    && RequestReply(AfterRequest(t, floor, withdrawal, b, first), floor, withdrawal, b, second) == PendingActions.Done
    && GrantReply(u, id) == PendingActions.Done && GrantReply(AfterGrant(u, id), id + 1) == PendingActions.Done
  }

  /** The steps of a run that asks for two withdrawals and grants them. */
  function AskTwice(labels: seq<Label>, b: Text, first: Text, second: Text): seq<Label> {
    labels + [Submit(withdrawal, b, first)] + [Submit(withdrawal, b, second)]
  }

  function GrantTwice(labels: seq<Label>, b: Text, first: Text, second: Text, id: nat): seq<Label> {
    AskTwice(labels, b, first, second) + [Grant(id)] + [Grant(id + 1)]
  }

  lemma TwiceIsBoth(c: Config, labels: seq<Label>, b: Text, first: Text, second: Text, id: nat)
    ensures var t, u := Run(c, labels), BothAsked(Run(c, labels), c.floor, b, first, second);
            && Run(c, labels + [Submit(withdrawal, b, first)]) == AfterRequest(t, c.floor, withdrawal, b, first)
            && Run(c, AskTwice(labels, b, first, second) + [Grant(id)]) == AfterGrant(u, id)
            && Run(c, GrantTwice(labels, b, first, second, id)) == AfterGrant(AfterGrant(u, id), id + 1)
  {
    RunSnoc(c, labels, Submit(withdrawal, b, first));
    RunSnoc(c, labels + [Submit(withdrawal, b, first)], Submit(withdrawal, b, second));
    RunSnoc(c, AskTwice(labels, b, first, second), Grant(id));
    RunSnoc(c, AskTwice(labels, b, first, second) + [Grant(id)], Grant(id + 1));
  }

  /** Granting one request is all that happens between two states. */
  lemma OneGrantBetween(t: Tables, u: Tables, n: nat, id: nat)
    requires Inv(u) && n < |u.requests| && u.requests[n].requestId == id && u.requests[n].kind == withdrawal
    requires GrantReply(u, id) == PendingActions.Done
    requires DebitsBetween(t, u, u.requests[n].brokerId) == 0 && CreditsBetween(t, u, u.requests[n].brokerId) == 0
    ensures DebitsBetween(t, AfterGrant(u, id), u.requests[n].brokerId) == u.requests[n].amount
    ensures CreditsBetween(t, AfterGrant(u, id), u.requests[n].brokerId) == 0
  {
    FindsRequest(u, n);
    GrantedUpdate(u.requests, n, u.requests[n].(status := APPROVED), withdrawal, u.requests[n].brokerId);
    GrantedUpdate(u.requests, n, u.requests[n].(status := APPROVED), deposit, u.requests[n].brokerId);
  }

  lemma FirstGrantedBetween(t: Tables, floor: int, b: Text, first: Text, second: Text)
    requires Inv(t) && BothDone(t, floor, b, first, second)
    ensures var t1 := AfterRequest(t, floor, withdrawal, b, first);
            var u := AfterGrant(BothAsked(t, floor, b, first, second), t.books.nextId);
            && TotalOf(t1, b) == TotalOf(t, b) && t1.books.nextId == t.books.nextId + 1
            && DebitsBetween(t1, u, b) == RequestUnits(first).value && CreditsBetween(t1, u, b) == 0
  {
    var t1 := AfterRequest(t, floor, withdrawal, b, first);
    var u := BothAsked(t, floor, b, first, second);
    BothAskedFacts(t, floor, b, first, second);
    SubmitQuiet(t, floor, b, first);
    SubmitQuiet(t1, floor, b, second);
    assert u.requests[..|t1.requests|] == t1.requests;
    OneGrantBetween(t1, u, |t.requests|, t.books.nextId);
  }

  lemma SecondExactly(c: Config, asked: seq<Label>, b: Text, second: Text, id: nat, cap: int, first: int)
    requires RequestReply(Run(c, asked), c.floor, withdrawal, b, second) == PendingActions.Done
    requires var u := Run(c, AskedThen(asked, b, second, [Grant(id)]));
             && GrantReply(u, Run(c, asked).books.nextId) == PendingActions.Done
             && DebitsBetween(Run(c, asked), u, b) == first && CreditsBetween(Run(c, asked), u, b) == 0
    requires cap == TotalOf(Run(c, asked), b) - c.floor
    ensures var u := Run(c, AskedThen(asked, b, second, [Grant(id)]));
            TotalOf(AfterGrant(u, Run(c, asked).books.nextId), b) >= c.floor <==> first + RequestUnits(second).value <= cap
  {
    FloorExactly(c, asked, b, second, [Grant(id)]);
  }

  /** Two withdrawals that are accepted while both are pending, after any run: granted one after the
      other, they leave the broker at or above the floor if and only if together they are within
      what the first request was measured against. */
  lemma TwoWithdrawals(c: Config, labels: seq<Label>, b: Text, first: Text, second: Text)
    requires BothDone(Run(c, labels), c.floor, b, first, second)
    ensures var t := Run(c, labels);
            TotalOf(Run(c, GrantTwice(labels, b, first, second, t.books.nextId)), b) >= c.floor
            <==> RequestUnits(first).value + RequestUnits(second).value <= TotalOf(t, b) - c.floor
  {
    var t, asked := Run(c, labels), labels + [Submit(withdrawal, b, first)];
    RunKeepsInv(c, labels);
    TwiceIsBoth(c, labels, b, first, second, t.books.nextId);
    FirstGrantedBetween(t, c.floor, b, first, second);
    SecondExactly(c, asked, b, second, t.books.nextId, TotalOf(t, b) - c.floor, RequestUnits(first).value);
  }

  /** The broker was opened with `units`, and nothing else has happened. */
  ghost predicate JustOpened(t: Tables, b: Text, units: int) {
    && Inv(t) && t.requests == [] && t.books.nextId == 2 && t.books.wallets == [Wallet(0, b, USD)]
    && Balance(t.books.entries, 0) == units && TotalOf(t, b) == units
  }

  function OpenedBooks(b: Text, units: int): Books {
    Books([Wallet(0, b, USD)], [Entry(1, Leg(0, CREDIT, units, USD, DEPOSIT, Given(b)))], 2)
  }

  lemma OpenedTables(b: Text, opening: Text)
    requires CreateReply(EMPTY, b, opening) == PendingActions.Done
    ensures var t := AfterCreateBroker(EMPTY, b, opening, USD);
            t.books == OpenedBooks(b, RequestUnits(opening).value) && t.requests == []
  {
  }

  lemma OpenedBalance(b: Text, units: int)
    ensures var books := OpenedBooks(b, units);
            Balance(books.entries, 0) == units && BrokerBalance(books.wallets, books.entries, b) == units
  {
    var books := OpenedBooks(b, units);
    assert books.entries == [] + [books.entries[0]];
    BalanceSnoc([], books.entries[0], 0);
    var w := books.wallets;
    assert w[..0] == [] && BrokerBalance(w, books.entries, b) == 0 + Balance(books.entries, 0);
  }

  lemma Opens(b: Text, opening: Text)
    requires CreateReply(EMPTY, b, opening) == PendingActions.Done
    ensures JustOpened(AfterCreateBroker(EMPTY, b, opening, USD), b, RequestUnits(opening).value)
  {
    assert Inv(EMPTY);
    CreateKeepsInv(EMPTY, b, opening, USD);
    OpenedTables(b, opening);
    OpenedBalance(b, RequestUnits(opening).value);
  }

  /** The only wallet of a broker serves a request in its currency. */
  lemma OnlyWallet(t: Tables, n: nat)
    requires TablesOk(t) && n < |t.requests| && t.requests[n].status == PENDING
    requires t.books.wallets == [Wallet(0, t.requests[n].brokerId, USD)] && t.requests[n].currency == USD
    requires t.requests[n].amount <= Balance(t.books.entries, 0)
    ensures var id := t.requests[n].requestId;
            && FindRequest(t.requests, id) == n && GrantReply(t, id) == PendingActions.Done
            && AfterGrant(t, id).books.wallets == t.books.wallets
            && Balance(AfterGrant(t, id).books.entries, 0)
               == Balance(t.books.entries, 0) + Signed(RequestLeg(t.requests[n], 0))
  {
    FindsRequest(t, n);
    BalanceSnoc(t.books.entries, Entry(t.books.nextId, RequestLeg(t.requests[n], 0)), 0);
  }

  lemma BothAccepted(t: Tables, b: Text, floor: int, amount: Text, units: int)
    requires RequestUnits(amount) == Ok(units) && JustOpened(t, b, floor + units)
    ensures RequestReply(t, floor, withdrawal, b, amount) == PendingActions.Done
    ensures RequestReply(AfterRequest(t, floor, withdrawal, b, amount), floor, withdrawal, b, amount)
            == PendingActions.Done
    ensures var u := BothAsked(t, floor, b, amount, amount);
            && u.books.wallets == t.books.wallets && u.books.entries == t.books.entries
            && |u.requests| == 2 && u.requests[0].currency == USD && u.requests[1].currency == USD
  {
    SubmitQuiet(t, floor, b, amount);
  }

  lemma TwoCovered(u: Tables, b: Text, units: int)
    requires Inv(u) && u.books.wallets == [Wallet(0, b, USD)] && 0 <= 2 * units <= Balance(u.books.entries, 0)
    requires u.requests == [Request(2, withdrawal, b, units, USD, PENDING), Request(3, withdrawal, b, units, USD, PENDING)]
    ensures GrantReply(u, 2) == PendingActions.Done && GrantReply(AfterGrant(u, 2), 3) == PendingActions.Done
  {
    OnlyWallet(u, 0);
    GrantedTotal(u, 0, 2);
    OnlyWallet(AfterGrant(u, 2), 1);
  }

  lemma BothGranted(t: Tables, b: Text, floor: int, amount: Text, units: int)
    requires RequestUnits(amount) == Ok(units) && JustOpened(t, b, floor + units) && 0 < units <= floor
    ensures BothDone(t, floor, b, amount, amount)
  {
    BothAccepted(t, b, floor, amount, units);
    BothAskedFacts(t, floor, b, amount, amount);
    TwoCovered(BothAsked(t, floor, b, amount, amount), b, units);
  }

  lemma PositiveOpens(b: Text, opening: Text)
    requires RequestUnits(opening).Ok? && RequestUnits(opening).value > 0
    ensures CreateReply(EMPTY, b, opening) == PendingActions.Done
  {
    PendingActions.SmallAmount(opening);
    PositiveMag(M.Parse(opening).value);
  }

  lemma PositiveMag(d: Decimals.Decimal)
    requires d.scale <= N.PLACES && N.Units(d) > 0
    ensures d.mag > 0
  {
    N.UnitsSign(d);
    assert 0 * Digits.Pow10(N.PLACES - d.scale) == 0;
  }

  lemma OpenedRun(c: Config, b: Text, opening: Text)
    requires CreateReply(EMPTY, b, opening) == PendingActions.Done
    ensures JustOpened(Run(c, [CreateBroker(b, opening, USD)]), b, RequestUnits(opening).value)
  {
    var l := CreateBroker(b, opening, USD);
    assert [l][..0] == [] && Run(c, []) == EMPTY;
    Opens(b, opening);
  }

  /** A run that breaks the floor: a broker is opened with the floor and some amount more, not above
      the floor itself, and asks twice for that amount. Both requests are accepted and granted, and
      the broker is left below the floor. */
  lemma FloorBroken(c: Config, b: Text, opening: Text, amount: Text, units: int)
    requires RequestUnits(amount) == Ok(units) && RequestUnits(opening) == Ok(c.floor + units) && 0 < units <= c.floor
    ensures var start := [CreateBroker(b, opening, USD)];
            && CreateReply(EMPTY, b, opening) == PendingActions.Done
            && BothDone(Run(c, start), c.floor, b, amount, amount)
            && TotalOf(Run(c, GrantTwice(start, b, amount, amount, 2)), b) < c.floor
  {
    PositiveOpens(b, opening);
    OpenedRun(c, b, opening);
    BothGranted(Run(c, [CreateBroker(b, opening, USD)]), b, c.floor, amount, units);
    TwoWithdrawals(c, [CreateBroker(b, opening, USD)], b, amount, amount);
  }
}
