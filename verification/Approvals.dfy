/** Executing approved actions: any number of pollers with snapshots of the queue that may be out
    of date, each claiming, dispatching, auditing and committing row by row, while admins request,
    approve and reject, stale requests expire, and other postings reach the ledger. */
module Approvals {
  import opened Texts
  import opened Canonical
  import opened Decimals
  import opened Ledger
  import opened PendingActions

  /** A row as a poll returned it. */
  datatype Polled = Polled(actionId: nat, action: Action)

  /** A poller between two statements. What `Written` holds is not committed. */
  datatype Poller =
    | Working(queue: seq<Polled>)
    | Claimed(row: Polled, queue: seq<Polled>)
    | Written(row: Polled, queue: seq<Polled>, wallets: seq<Wallet>, entries: seq<Entry>, result: DispatchResult)
    | Failing(row: Polled, queue: seq<Polled>)

  datatype State = State(data: Data, pollers: map<nat, Poller>)

  const INITIAL: State := State(Data(Books([], [], 0), map[], []), map[])

  const POLL_LIMIT: nat := 25

  datatype Label =
    | Adjust(user: Text, body: Payload, now: int)
    | Create(kind: Kind, payload: Payload, user: Text, now: int)
    | Approve(user: Text, id: nat, now: int)
    | Reject(user: Text, id: nat, reason: Text)
    | Expire(now: int, hours: int)
    | Post(brokerId: Text, currency: Text, direction: Direction, amount: int, purpose: ReferenceType, name: Text)
    | Poll(poller: nat, rows: seq<Polled>)
    | Claim(poller: nat)
    | Dispatch(poller: nat)
    | Commit(poller: nat, acknowledged: bool)
    | Throw(poller: nat)
    | WriteFailure(poller: nat)
    | SkipFailure(poller: nat)
    | Stop(poller: nat)

  // ----- Steps -----

  /** `WHERE status = 'approved' ORDER BY approved_at ASC LIMIT 25` */
  predicate IsPoll(actions: Actions, rows: seq<Polled>) {
    && |rows| <= POLL_LIMIT
    && (forall r | r in rows ::
          r.actionId in actions && actions[r.actionId] == r.action && r.action.status == APPROVED)
    && (forall i, j | 0 <= i < j < |rows| ::
          rows[i].actionId != rows[j].actionId && rows[i].action.approvedAt <= rows[j].action.approvedAt)
    && (forall id | id in actions && actions[id].status == APPROVED && Polled(id, actions[id]) !in rows ::
          |rows| == POLL_LIMIT && forall r | r in rows :: r.action.approvedAt <= actions[id].approvedAt)
  }

  predicate Holds(w: Poller, id: nat) {
    (w.Claimed? || w.Written?) && w.row.actionId == id
  }

  /** Some open transaction has updated the row and not ended. */
  predicate Locked(pollers: map<nat, Poller>, id: nat) {
    exists p | p in pollers :: Holds(pollers[p], id)
  }

  predicate IsApproved(actions: Actions, id: nat) {
    id in actions && actions[id].status == APPROVED
  }

  /** The dispatcher: only wallet adjustments do anything. */
  function DispatchOutcome(books: Books, a: Action): Result<DispatchResult> {
    if a.kind != WALLET_ADJUST then Ok(NotImplemented)
    else if PayloadUnits(a.payload).TypeError? then TypeError
    else Ok(DispatchResult.Adjustment(AdjustmentOf(books, a.payload)))
  }

  function DispatchBooks(books: Books, a: Action): Books
    requires DispatchOutcome(books, a).Ok?
  {
    if a.kind != WALLET_ADJUST then books else Adjusted(books, a.payload, PayloadUnits(a.payload).value)
  }

  function AfterCommit(d: Data, id: nat, wallets: seq<Wallet>, entries: seq<Entry>, result: DispatchResult): Data
    requires id in d.actions
  {
    Data(d.books.(wallets := d.books.wallets + wallets, entries := d.books.entries + entries),
         d.actions[id := d.actions[id].(status := EXECUTED)],
         d.audits + [Execution(id, result)])
  }

  function AfterCreate(d: Data, kind: Kind, payload: Payload, user: Text, now: int): Data {
    var id := d.books.nextId;
    d.(books := d.books.(nextId := id + 1), actions := d.actions[id := NewAction(kind, payload, user, now)])
  }

  /** A deposit, withdrawal, commission or opening balance. */
  function AfterPost(d: Data, l: Label): Data
    requires l.Post?
  {
    if l.purpose == ADJUSTMENT then d
    else
      var leg := Leg(WalletIdFor(d.books, l.brokerId, l.currency), l.direction, l.amount, l.currency,
                     l.purpose, Given(l.name));
      d.(books := WithEntry(WithWallet(d.books, l.brokerId, l.currency), leg))
  }

  function ClaimStep(st: State, p: nat, row: Polled, rest: seq<Polled>): State {
    if Locked(st.pollers, row.actionId) then st
    else st.(pollers := st.pollers[p := if IsApproved(st.data.actions, row.actionId)
                                        then Claimed(row, rest) else Working(rest)])
  }

  function DispatchStep(st: State, p: nat, row: Polled, rest: seq<Polled>): State {
    var books := st.data.books;
    var outcome := DispatchOutcome(books, row.action);
    if outcome.TypeError? then st.(pollers := st.pollers[p := Failing(row, rest)])
    else
      var after := DispatchBooks(books, row.action);
      State(st.data.(books := books.(nextId := after.nextId)),
            st.pollers[p := Written(row, rest, after.wallets[|books.wallets|..],
                                    after.entries[|books.entries|..], outcome.value)])
  }

  /** One statement of one participant. A step that is not possible changes nothing. */
  function Step(threshold: Decimal, st: State, l: Label): State {
    match l
    case Adjust(user, body, now) => st.(data := AfterAdjust(st.data, threshold, user, body, now))
    case Create(kind, payload, user, now) => st.(data := AfterCreate(st.data, kind, payload, user, now))
    case Approve(user, id, now) => st.(data := AfterApprove(st.data, user, id, now))
    case Reject(user, id, reason) => st.(data := AfterReject(st.data, user, id, reason))
    case Expire(now, hours) => st.(data := AfterExpire(st.data, now, hours))
    case Post(_, _, _, _, _, _) => st.(data := AfterPost(st.data, l))
    case Poll(p, rows) =>
      if p in st.pollers || !IsPoll(st.data.actions, rows) then st
      else st.(pollers := st.pollers[p := Working(rows)])
    case Stop(p) => st.(pollers := st.pollers - {p})
    case _ => if l.poller in st.pollers then PollerStep(st, l, st.pollers[l.poller]) else st
  }

  function PollerStep(st: State, l: Label, w: Poller): State
    requires l.Claim? || l.Dispatch? || l.Commit? || l.Throw? || l.WriteFailure? || l.SkipFailure?
  {
    var p := l.poller;
    if l.Claim? && w.Working? && w.queue != [] then ClaimStep(st, p, w.queue[0], w.queue[1..])
    else if l.Dispatch? && w.Claimed? then DispatchStep(st, p, w.row, w.queue)
    else if l.Commit? && w.Written? && w.row.actionId in st.data.actions then
      State(AfterCommit(st.data, w.row.actionId, w.wallets, w.entries, w.result),
            st.pollers[p := if l.acknowledged then Working(w.queue) else Failing(w.row, w.queue)])
    else if l.Throw? && (w.Claimed? || w.Written?) then
      st.(pollers := st.pollers[p := Failing(w.row, w.queue)])
    else if l.WriteFailure? && w.Failing? then
      State(st.data.(audits := st.data.audits + [ExecutionFailed(w.row.actionId)]),
            st.pollers[p := Working(w.queue)])
    else if l.SkipFailure? && w.Failing? then st.(pollers := st.pollers[p := Working(w.queue)])
    else st
  }

  function Run(threshold: Decimal, labels: seq<Label>): State {
    if labels == [] then INITIAL
    else Step(threshold, Run(threshold, labels[..|labels| - 1]), labels[|labels| - 1])
  }
}
