/** The append-only ledger: wallets, entries, and the adjustment that posts a balanced pair.
    Amounts are stored in units of 0.0001; identifiers come from a counter, so that a new one
    was never used before. */
module Ledger {
  import opened Texts
  import opened Canonical
  import opened ColumnUnits
  import opened Decimals
  import M = MoneyText
  import N = NumericColumns

  datatype Direction = DEBIT | CREDIT

  datatype ReferenceType = TRADE | CHARGE | DEPOSIT | WITHDRAWAL | ADJUSTMENT

  /** What an entry refers to: a generated identifier or a given one. */
  datatype Reference = Generated(id: nat) | Given(name: Text)

  datatype Wallet = Wallet(walletId: nat, brokerId: Text, currency: Text)

  datatype Leg = Leg(
    walletId: nat,
    direction: Direction,
    amount: int,
    currency: Text,
    referenceType: ReferenceType,
    reference: Reference)

  datatype Entry = Entry(entryId: nat, leg: Leg)

  /** The two tables and the identifier counter. */
  datatype Books = Books(wallets: seq<Wallet>, entries: seq<Entry>, nextId: nat)

  function Opposite(d: Direction): Direction {
    if d == DEBIT then CREDIT else DEBIT
  }

  function Signed(leg: Leg): int {
    if leg.direction == CREDIT then leg.amount else 0 - leg.amount
  }

  /** `SUM(CASE WHEN direction = 'CREDIT' THEN amount ELSE -amount END)` over one wallet. */
  function Balance(entries: seq<Entry>, walletId: nat): int {
    if entries == [] then 0
    else
      var n := |entries| - 1;
      Balance(entries[..n], walletId)
      + if entries[n].leg.walletId == walletId then Signed(entries[n].leg) else 0
  }

  predicate IsWallet(w: Wallet, brokerId: Text, currency: Text) {
    w.brokerId == brokerId && w.currency == currency
  }

  /** The position of the broker's first wallet in the currency, or the length. */
  function FindWallet(wallets: seq<Wallet>, brokerId: Text, currency: Text): (i: nat)
    ensures i <= |wallets| && (i < |wallets| ==> IsWallet(wallets[i], brokerId, currency))
    ensures forall k | 0 <= k < i :: !IsWallet(wallets[k], brokerId, currency)
  {
    if wallets == [] || IsWallet(wallets[0], brokerId, currency) then 0
    else 1 + FindWallet(wallets[1..], brokerId, currency)
  }

  predicate HasWallet(books: Books, brokerId: Text, currency: Text) {
    FindWallet(books.wallets, brokerId, currency) < |books.wallets|
  }

  function WithWallet(books: Books, brokerId: Text, currency: Text): Books {
    if HasWallet(books, brokerId, currency) then books
    else Books(books.wallets + [Wallet(books.nextId, brokerId, currency)], books.entries, books.nextId + 1)
  }

  function WalletIdFor(books: Books, brokerId: Text, currency: Text): nat {
    if HasWallet(books, brokerId, currency) then
      books.wallets[FindWallet(books.wallets, brokerId, currency)].walletId
    else books.nextId
  }

  function WithEntry(books: Books, leg: Leg): Books {
    books.(entries := books.entries + [Entry(books.nextId, leg)], nextId := books.nextId + 1)
  }

  // ----- What the store is to do -----

  predicate Has(wallets: seq<Wallet>, brokerId: Text, currency: Text) {
    exists w | w in wallets :: w.brokerId == brokerId && w.currency == currency
  }

  /** `w` is there, and no wallet of its broker in its currency before it. */
  predicate FirstOfItsKind(wallets: seq<Wallet>, w: Wallet) {
    exists i | 0 <= i < |wallets| ::
      wallets[i] == w && forall k | 0 <= k < i :: wallets[k].brokerId != w.brokerId || wallets[k].currency != w.currency
  }

  /** The broker has the wallet in the currency: the first one there was, or else a new one. */
  predicate WalletFor(before: seq<Wallet>, after: seq<Wallet>, nextId: nat, w: Wallet) {
    if Has(before, w.brokerId, w.currency) then after == before && FirstOfItsKind(before, w)
    else after == before + [w] && w.walletId == nextId
  }

  lemma WalletIsFor(books: Books, brokerId: Text, currency: Text)
    ensures WalletFor(books.wallets, WithWallet(books, brokerId, currency).wallets, books.nextId,
                      Wallet(WalletIdFor(books, brokerId, currency), brokerId, currency))
  {
    var i := FindWallet(books.wallets, brokerId, currency);
    if i < |books.wallets| {
      assert books.wallets[i] in books.wallets;
    }
  }

  class LedgerStore {
    var wallets: seq<Wallet>
    var entries: seq<Entry>
    var nextId: nat

    function Value(): Books
      reads this
    {
      Books(wallets, entries, nextId)
    }

    constructor ()
      ensures Value() == Books([], [], 0)
    {
      wallets, entries, nextId := [], [], 0;
    }

    method NewId() returns (id: nat)
      modifies this`nextId
      ensures id == old(nextId) && nextId == id + 1
    {
      id := nextId;
      nextId := nextId + 1;
    }

    /** The broker's wallet in the currency; a new one only if there is none. */
    method FindOrCreateWallet(brokerId: Text, currency: Text) returns (walletId: nat)
      modifies this`wallets, this`nextId
      ensures Value() == WithWallet(old(Value()), brokerId, currency)
      ensures walletId == WalletIdFor(old(Value()), brokerId, currency)
      ensures WalletFor(old(wallets), wallets, old(nextId), Wallet(walletId, brokerId, currency))
    {
      WalletIsFor(old(Value()), brokerId, currency);
      var i := FindWallet(wallets, brokerId, currency);
      if i < |wallets| {
        return wallets[i].walletId;
      }
      walletId := NewId();
      wallets := wallets + [Wallet(walletId, brokerId, currency)];
    }

    method PostPair(legA: Leg, legB: Leg) returns (entryIds: seq<nat>)
      modifies this`entries, this`nextId
      ensures Value() == WithEntry(WithEntry(old(Value()), legA), legB)
      ensures entryIds == [old(nextId), old(nextId) + 1]
      ensures entries == old(entries) + [Entry(old(nextId), legA), Entry(old(nextId) + 1, legB)]
      ensures wallets == old(wallets) && nextId == old(nextId) + 2
    {
      entryIds := [];
      for i := 0 to 2
        invariant entryIds == [old(nextId), old(nextId) + 1][..i]
        invariant Value() == if i == 0 then old(Value())
                             else if i == 1 then WithEntry(old(Value()), legA)
                             else WithEntry(WithEntry(old(Value()), legA), legB)
      {
        var entryId := NewId();
        entries := entries + [Entry(entryId, if i == 0 then legA else legB)];
        entryIds := entryIds + [entryId];
      }
    }

    method GetBalance(walletId: nat) returns (balance: int)
      ensures balance == Balance(entries, walletId)
    {
      balance := 0;
      for i := 0 to |entries|
        invariant balance == Balance(entries[..i], walletId)
      {
        assert entries[..i + 1][..i] == entries[..i];
        if entries[i].leg.walletId == walletId {
          balance := balance + Signed(entries[i].leg);
        }
      }
      assert entries[..|entries|] == entries;
    }
  }

  // ----- Wallet adjustment -----

  datatype Payload = Payload(brokerId: Text, direction: Direction, amount: Text, currency: Text)

  datatype Adjustment = Adjustment(entryIds: seq<nat>, walletId: nat, referenceId: nat)

  function AdjustLeg(p: Payload, walletId: nat, direction: Direction, amount: int, referenceId: nat): Leg {
    Leg(walletId, direction, amount, p.currency, ADJUSTMENT, Generated(referenceId))
  }

  /** The amount to post, in units, or the error that is thrown: not a decimal, not positive, or
      too large for the column. */
  function PayloadUnits(p: Payload): Result<int> {
    var m := M.Parse(p.amount);
    if m.TypeError? || IsZero(m.value) || IsNegative(m.value) || !N.Fits(m.value) then TypeError
    else Ok(N.Units(m.value))
  }

  function AdjustmentOf(books: Books, p: Payload): Adjustment {
    var id := WithWallet(books, p.brokerId, p.currency).nextId;
    Adjustment([id + 1, id + 2], WalletIdFor(books, p.brokerId, p.currency), id)
  }

  /** The books after a pair for `amount` was posted. */
  function Adjusted(books: Books, p: Payload, amount: int): Books {
    var a := AdjustmentOf(books, p);
    var b := WithWallet(books, p.brokerId, p.currency);
    var b' := WithEntry(b.(nextId := b.nextId + 1), AdjustLeg(p, a.walletId, p.direction, amount, a.referenceId));
    WithEntry(b', AdjustLeg(p, a.walletId, Opposite(p.direction), amount, a.referenceId))
  }

  /** The amount is positive and fits the column. */
  predicate Payable(amount: Text) {
    var d := M.Parse(amount);
    d.Ok? && !d.value.neg && d.value.mag > 0 && Kept(d.value.mag, d.value.scale) < LIMIT
  }

  lemma PayloadMeans(p: Payload)
    ensures PayloadUnits(p).Ok? <==> Payable(p.amount)
    ensures Payable(p.amount) ==>
              var d := M.Parse(p.amount).value; PayloadUnits(p).value == Kept(d.mag, d.scale)
  {
    var m := M.Parse(p.amount);
    if m.Ok? && IsPositive(m.value) { KeptIs(m.value); }
  }

  /** A debit and a credit of the same amount on one wallet, the payload's direction first, under one
      new reference. */
  predicate PairFor(before: Books, after: Books, p: Payload, units: int, a: Adjustment) {
    && WalletFor(before.wallets, after.wallets, before.nextId, Wallet(a.walletId, p.brokerId, p.currency))
    && |a.entryIds| == 2 && before.nextId <= a.referenceId < a.entryIds[0] < a.entryIds[1] < after.nextId
    && var other := if p.direction == CREDIT then DEBIT else CREDIT;
       after.entries
       == before.entries
          + [Entry(a.entryIds[0],
                   Leg(a.walletId, p.direction, units, p.currency, ADJUSTMENT, Generated(a.referenceId))),
             Entry(a.entryIds[1],
                   Leg(a.walletId, other, units, p.currency, ADJUSTMENT, Generated(a.referenceId)))]
  }

  lemma AdjustedPair(books: Books, p: Payload, units: int)
    ensures PairFor(books, Adjusted(books, p, units), p, units, AdjustmentOf(books, p))
  {
    WalletIsFor(books, p.brokerId, p.currency);
  }

  /** `executeWalletAdjust`. When it throws, the caller's transaction undoes what was written. */
  method ExecuteWalletAdjust(p: Payload, ops: LedgerStore) returns (r: Result<Adjustment>)
    modifies ops
    ensures r.Ok? <==> PayloadUnits(p).Ok?
    ensures r.Ok? ==> r.value == AdjustmentOf(old(ops.Value()), p)
    ensures r.Ok? ==> ops.Value() == Adjusted(old(ops.Value()), p, PayloadUnits(p).value)
  {
    var amount := M.Parse(p.amount);
    if amount.TypeError? || IsZero(amount.value) || IsNegative(amount.value) {
      return TypeError;
    }
    var walletId := ops.FindOrCreateWallet(p.brokerId, p.currency);
    var referenceId := ops.NewId();
    if !N.Fits(amount.value) {
      return TypeError;
    }
    var units := N.Units(amount.value);
    var entryIds := ops.PostPair(
      AdjustLeg(p, walletId, p.direction, units, referenceId),
      AdjustLeg(p, walletId, Opposite(p.direction), units, referenceId));
    return Ok(Adjustment(entryIds, walletId, referenceId));
  }

  // ----- What adjustments do and do not change -----

  lemma BalanceSnoc(entries: seq<Entry>, e: Entry, walletId: nat)
    ensures Balance(entries + [e], walletId)
            == Balance(entries, walletId) + if e.leg.walletId == walletId then Signed(e.leg) else 0
  {
    assert (entries + [e])[..|entries|] == entries;
  }

  /** Both legs fall on the same wallet, so an adjustment changes no balance at all. */
  lemma AdjustmentNeutral(books: Books, p: Payload, amount: int, walletId: nat)
    ensures Balance(Adjusted(books, p, amount).entries, walletId) == Balance(books.entries, walletId)
  {
    var after := Adjusted(books, p, amount).entries;
    var n := |books.entries|;
    assert after == books.entries + [after[n]] + [after[n + 1]];
    BalanceSnoc(books.entries, after[n], walletId);
    BalanceSnoc(books.entries + [after[n]], after[n + 1], walletId);
  }

  /** The immediate path prints the amount before it is executed, the queued path stores it as it
      was given: both post the same legs, or both throw. */
  lemma PathsPostEqualLegs(p: Payload)
    requires M.Parse(p.amount).Ok?
    ensures PayloadUnits(p.(amount := M.Print(M.Parse(p.amount).value))) == PayloadUnits(p)
  {
    var m := M.Parse(p.amount).value;
    M.ParsePrint(m);
    if !IsZero(m) {
      assert M.Plain(m) == m;
    }
  }

  // ----- Finding entries by reference -----

  /** The legs that carry a generated reference, in order. */
  function Referring(entries: seq<Entry>, reference: nat): seq<Leg> {
    if entries == [] then []
    else
      var n := |entries| - 1;
      Referring(entries[..n], reference)
      + if entries[n].leg.reference == Generated(reference) then [entries[n].leg] else []
  }

  lemma ReferringSnoc(entries: seq<Entry>, e: Entry, reference: nat)
    ensures Referring(entries + [e], reference)
            == Referring(entries, reference) + if e.leg.reference == Generated(reference) then [e.leg] else []
  {
    assert (entries + [e])[..|entries|] == entries;
  }

  lemma {:induction false} ReferringNone(entries: seq<Entry>, reference: nat)
    requires forall e | e in entries :: e.leg.reference != Generated(reference)
    ensures Referring(entries, reference) == []
  {
    if entries != [] {
      ReferringNone(entries[..|entries| - 1], reference);
    }
  }

  lemma {:induction false} ReferringMember(entries: seq<Entry>, reference: nat, e: Entry)
    requires e in entries && e.leg.reference == Generated(reference)
    ensures e.leg in Referring(entries, reference)
  {
    var n := |entries| - 1;
    if e != entries[n] {
      ReferringMember(entries[..n], reference, e);
    }
  }
}
