/** The four-eyes queue: its table, the repository's conditional updates, and the admin handlers
    that use it. Each handler runs in a transaction that also writes its audit row; when it
    throws, nothing of it remains. */
module PendingActions {
  import opened Texts
  import opened ColumnUnits
  import opened DecimalReader
  import opened Decimals
  import opened Ledger
  import opened Significance
  import C = Canonical
  import Digits
  import M = MoneyText
  import N = NumericColumns

  datatype Option<T> = None | Some(value: T)

  datatype Kind =
    | WALLET_ADJUST
    | CHARGES_RATE_UPDATE
    | TRADE_REVERSE
    | BROKER_SUSPEND
    | BROKER_LIMITS_UPDATE

  datatype Status = PENDING | APPROVED | REJECTED | EXPIRED | EXECUTED

  /** Times are in milliseconds. */
  datatype Action = Action(
    kind: Kind,
    payload: Payload,
    requestedBy: Text,
    requestedAt: int,
    status: Status,
    approvedBy: Option<Text>,
    approvedAt: int,
    rejectedBy: Option<Text>)

  /** What the dispatcher returns. */
  datatype DispatchResult = Adjustment(adjustment: Ledger.Adjustment) | NotImplemented

  datatype AuditRow =
    | Execution(actionId: nat, result: DispatchResult)
    | ExecutionFailed(actionId: nat)
    | Queued(userId: Text, actionId: nat)
    | AdjustedNow(userId: Text, entryIds: seq<nat>)
    | ApprovedBy(userId: Text, actionId: nat)
    | RejectedBy(userId: Text, actionId: nat)

  type Actions = map<nat, Action>

  /** The committed tables. */
  datatype Data = Data(books: Books, actions: Actions, audits: seq<AuditRow>)

  /** How a handler ends: with success, or with the exception that undoes it. */
  datatype Reply =
    | Done
    | QueuedForApproval(actionId: nat)
    | ExecutedNow(entryIds: seq<nat>)
    | NotFound
    | Forbidden
    | Conflict
    | Invalid

  // ----- Conditional updates -----

  function NewAction(kind: Kind, payload: Payload, user: Text, now: int): Action {
    Action(kind, payload, user, now, PENDING, None, 0, None)
  }

  /** `WHERE action_id = id AND status = 'pending' AND requested_by <> user` */
  predicate MayDecide(actions: Actions, id: nat, user: Text) {
    id in actions && actions[id].status == PENDING && actions[id].requestedBy != user
  }

  function Approved(a: Action, user: Text, now: int): Action {
    a.(status := APPROVED, approvedBy := Some(user), approvedAt := now)
  }

  function Rejected(a: Action, user: Text): Action {
    a.(status := REJECTED, rejectedBy := Some(user))
  }

  const HOUR: int := 3600000

  predicate Stale(a: Action, now: int, hours: int) {
    a.status == PENDING && a.requestedAt < now - hours * HOUR
  }

  function Expired(actions: Actions, now: int, hours: int): Actions {
    map id | id in actions ::
      if Stale(actions[id], now, hours) then actions[id].(status := EXPIRED) else actions[id]
  }

  class PendingActionsRepository {
    var rows: Actions

    constructor ()
      ensures rows == map[]
    {
      rows := map[];
    }

    method Create(id: nat, kind: Kind, payload: Payload, requestedBy: Text, now: int)
      requires id !in rows
      modifies this
      ensures rows == old(rows)[id := NewAction(kind, payload, requestedBy, now)]
      ensures rows == old(rows)[id := Action(kind, payload, requestedBy, now, PENDING, None, 0, None)]
    {
      rows := rows[id := Action(kind, payload, requestedBy, now, PENDING, None, 0, None)];
    }

    method Approve(id: nat, approverId: Text, now: int) returns (updated: Option<Action>)
      modifies this
      ensures updated.Some? <==> MayDecide(old(rows), id, approverId)
      ensures updated.Some? ==>
                updated.value == Approved(old(rows)[id], approverId, now) && rows == old(rows)[id := updated.value]
      ensures updated.Some? <==>
              id in old(rows) && old(rows)[id].status == PENDING && old(rows)[id].requestedBy != approverId
      ensures updated.Some? ==>
                updated.value
                == old(rows)[id].(status := APPROVED, approvedBy := Some(approverId), approvedAt := now)
      ensures updated.None? ==> rows == old(rows)
    {
      if id in rows && rows[id].status == PENDING && rows[id].requestedBy != approverId {
        var row := rows[id].(status := APPROVED, approvedBy := Some(approverId), approvedAt := now);
        rows := rows[id := row];
        return Some(row);
      }
      return None;
    }

    method Reject(id: nat, rejectorId: Text) returns (updated: Option<Action>)
      modifies this
      ensures updated.Some? <==> MayDecide(old(rows), id, rejectorId)
      ensures updated.Some? ==>
                updated.value == Rejected(old(rows)[id], rejectorId) && rows == old(rows)[id := updated.value]
      ensures updated.Some? <==>
              id in old(rows) && old(rows)[id].status == PENDING && old(rows)[id].requestedBy != rejectorId
      ensures updated.Some? ==>
                updated.value == old(rows)[id].(status := REJECTED, rejectedBy := Some(rejectorId))
      ensures updated.None? ==> rows == old(rows)
    {
      if id in rows && rows[id].status == PENDING && rows[id].requestedBy != rejectorId {
        var row := rows[id].(status := REJECTED, rejectedBy := Some(rejectorId));
        rows := rows[id := row];
        return Some(row);
      }
      return None;
    }
  }

  // ----- What each handler commits -----

  /** `^\d+(\.\d{1,4})?$`, not trimmed. */
  predicate AmountPattern(t: Text) {
    M.Unsigned(t) && M.Scale(t) <= 4
  }

  lemma SmallAmount(t: Text)
    requires AmountPattern(t)
    ensures M.Parse(t).Ok? && M.Parse(t).value.scale <= 4 && !M.Parse(t).value.neg
  {
    M.UnsignedDigits(t);
    M.TrimNothing(t);
    assert M.Body(t) == t;
  }

  lemma FourPlaces(d: Decimal, n: int)
    requires !d.neg && d.scale <= 4 && d.mag * Digits.Pow10(4 - d.scale) == n
    ensures At(d, 4) == n && N.Units(d) == n && (IsPositive(d) <==> n > 0)
  {
    if d.mag > 0 { MulPositive(d.mag, Digits.Pow10(4 - d.scale)); }
  }

  /** The schema's texts are those that have an amount, and they parse to it. */
  lemma AmountMeans(t: Text)
    ensures AmountPattern(t) <==> AmountOf(t) >= 0
    ensures AmountPattern(t) ==>
              var d := M.Parse(t);
              && d.Ok? && d.value.scale <= 4 && At(d.value, 4) == AmountOf(t) && N.Units(d.value) == AmountOf(t)
              && (IsPositive(d.value) <==> AmountOf(t) > 0) && !d.value.neg
  {
    AmountAccepted(t);
    if AmountOf(t) >= 0 {
      AmountParsed(t);
      FourPlaces(M.Parse(t).value, AmountOf(t));
    }
  }

  /** An amount in units of 0.0001 is above a decimal, in whole numbers. */
  predicate Above(units: int, threshold: Decimal) {
    units * Digits.Pow10(threshold.scale) > 10000 * Coef(threshold)
  }

  lemma AboveMeans(d: Decimal, units: int, threshold: Decimal)
    requires d.scale <= 4 && units == At(d, 4)
    ensures Compare(d, threshold) > 0 <==> Above(units, threshold)
  {
    var k := Max(d.scale, threshold.scale);
    var j := threshold.scale + 4;
    AtRescale(d, k, j);
    AtRescale(threshold, k, j);
    AtRescale(d, 4, j);
    Powers();
    var p := Digits.Pow10(j - k);
    if At(d, k) > At(threshold, k) { StrictTimes(At(threshold, k), At(d, k), p); }
    else { MulMonotone(At(d, k), At(threshold, k), p); }
  }

  /** Above the threshold an adjustment is queued, with the amount as it was given; otherwise it
      is executed at once, with the amount printed. */
  function AdjustReply(d: Data, threshold: Decimal, body: Payload): Reply {
    if !AmountPattern(body.amount) then Invalid
    else
      var amount := M.Parse(body.amount);
      if amount.TypeError? || IsZero(amount.value) || IsNegative(amount.value) then Invalid
      else if Compare(amount.value, threshold) > 0 then QueuedForApproval(d.books.nextId)
      else
        var now := body.(amount := M.Print(amount.value));
        if PayloadUnits(now).TypeError? then Invalid
        else ExecutedNow(AdjustmentOf(d.books, now).entryIds)
  }

  function AfterAdjust(d: Data, threshold: Decimal, user: Text, body: Payload, now: int): Data {
    match AdjustReply(d, threshold, body)
    case QueuedForApproval(id) =>
      Data(d.books.(nextId := id + 1), d.actions[id := NewAction(WALLET_ADJUST, body, user, now)],
           d.audits + [Queued(user, id)])
    case ExecutedNow(entryIds) =>
      var canonical := body.(amount := M.Print(M.Parse(body.amount).value));
      Data(Adjusted(d.books, canonical, PayloadUnits(canonical).value), d.actions,
           d.audits + [AdjustedNow(user, entryIds)])
    case _ => d
  }

  /** Queued for its threshold, with the amount as it was given, under a new id. */
  predicate QueuedAs(before: Data, after: Data, user: Text, body: Payload, now: int, id: nat) {
    && id == before.books.nextId && after.books == before.books.(nextId := id + 1)
    && after.actions == before.actions[id := Action(WALLET_ADJUST, body, user, now, PENDING, None, 0, None)]
    && after.audits == before.audits + [Queued(user, id)]
  }

  /** Executed at once: its pair of legs, and the audit row with their ids. */
  ghost predicate ExecutedAs(before: Data, after: Data, user: Text, body: Payload, entryIds: seq<nat>) {
    && after.actions == before.actions && after.audits == before.audits + [AdjustedNow(user, entryIds)]
    && exists a: Ledger.Adjustment ::
         a.entryIds == entryIds && PairFor(before.books, after.books, body, AmountOf(body.amount), a)
  }

  /** How an adjustment is routed, by its amount in units. */
  ghost predicate Routed(before: Data, after: Data, threshold: Decimal, user: Text, body: Payload, now: int,
                         reply: Reply)
  {
    var units := AmountOf(body.amount);
    if units <= 0 then reply == Invalid && after == before
    else if Above(units, threshold) then
      reply.QueuedForApproval? && QueuedAs(before, after, user, body, now, reply.actionId)
    else if units >= LIMIT then reply == Invalid && after == before
    else reply.ExecutedNow? && ExecutedAs(before, after, user, body, reply.entryIds)
  }

  lemma ImmediateUnits(body: Payload)
    requires AmountOf(body.amount) > 0
    ensures var now := body.(amount := M.Print(M.Parse(body.amount).value));
            PayloadUnits(now) == if AmountOf(body.amount) < LIMIT then C.Ok(AmountOf(body.amount)) else C.TypeError
  {
    AmountMeans(body.amount);
    PathsPostEqualLegs(body);
    TwentyDigits(AmountOf(body.amount));
  }

  lemma ImmediatePair(books: Books, body: Payload, units: int)
    requires M.Parse(body.amount).Ok?
    ensures var now := body.(amount := M.Print(M.Parse(body.amount).value));
            PairFor(books, Adjusted(books, now, units), body, units, AdjustmentOf(books, now))
  {
    AdjustedPair(books, body.(amount := M.Print(M.Parse(body.amount).value)), units);
  }

  /** The reply follows from what the amount's text means. */
  lemma ReplyFollows(d: Data, threshold: Decimal, body: Payload, units: int)
    requires AmountPattern(body.amount) <==> units >= 0
    requires units >= 0 ==> M.Parse(body.amount).Ok? && (IsPositive(M.Parse(body.amount).value) <==> units > 0)
    requires units >= 0 ==> !M.Parse(body.amount).value.neg
    requires units > 0 ==> (Compare(M.Parse(body.amount).value, threshold) > 0 <==> Above(units, threshold))
    requires units > 0 ==> (PayloadUnits(body.(amount := M.Print(M.Parse(body.amount).value))).Ok? <==> units < LIMIT)
    ensures var reply := AdjustReply(d, threshold, body);
            if units <= 0 then reply == Invalid
            else if Above(units, threshold) then reply == QueuedForApproval(d.books.nextId)
            else if units >= LIMIT then reply == Invalid
            else reply.ExecutedNow?
  {
  }

  /** Which reply an amount gets. */
  lemma RepliesRouted(d: Data, threshold: Decimal, body: Payload)
    ensures var reply, units := AdjustReply(d, threshold, body), AmountOf(body.amount);
            if units <= 0 then reply == Invalid
            else if Above(units, threshold) then reply == QueuedForApproval(d.books.nextId)
            else if units >= LIMIT then reply == Invalid
            else reply.ExecutedNow?
  {
    AmountMeans(body.amount);
    if AmountOf(body.amount) > 0 {
      AboveMeans(M.Parse(body.amount).value, AmountOf(body.amount), threshold);
      ImmediateUnits(body);
    }
    ReplyFollows(d, threshold, body, AmountOf(body.amount));
  }

  lemma ExecutedRoute(d: Data, threshold: Decimal, user: Text, body: Payload, now: int)
    requires AdjustReply(d, threshold, body).ExecutedNow?
    ensures ExecutedAs(d, AfterAdjust(d, threshold, user, body, now), user, body,
                       AdjustReply(d, threshold, body).entryIds)
  {
    var units, payload := AmountOf(body.amount), body.(amount := M.Print(M.Parse(body.amount).value));
    RepliesRouted(d, threshold, body);
    ImmediateUnits(body);
    ImmediatePair(d.books, body, units);
    assert AfterAdjust(d, threshold, user, body, now).books == Adjusted(d.books, payload, units);
  }

  /** The handler for adjustments: rejected, queued or executed by the amount alone. */
  lemma AdjustRouted(d: Data, threshold: Decimal, user: Text, body: Payload, now: int)
    ensures Routed(d, AfterAdjust(d, threshold, user, body, now), threshold, user, body, now,
                   AdjustReply(d, threshold, body))
  {
    RepliesRouted(d, threshold, body);
    if AdjustReply(d, threshold, body).ExecutedNow? {
      ExecutedRoute(d, threshold, user, body, now);
    }
  }

  function DecisionReply(d: Data, user: Text, id: nat): Reply {
    if id !in d.actions then NotFound
    else if d.actions[id].requestedBy == user then Forbidden
    else if d.actions[id].status != PENDING then Conflict
    else Done
  }

  function AfterApprove(d: Data, user: Text, id: nat, now: int): Data {
    if DecisionReply(d, user, id) != Done then d
    else d.(actions := d.actions[id := Approved(d.actions[id], user, now)], audits := d.audits + [ApprovedBy(user, id)])
  }

  function AfterReject(d: Data, user: Text, id: nat, reason: Text): Data {
    if reason == [] || DecisionReply(d, user, id) != Done then d
    else d.(actions := d.actions[id := Rejected(d.actions[id], user)], audits := d.audits + [RejectedBy(user, id)])
  }

  function AfterExpire(d: Data, now: int, hours: int): Data {
    d.(actions := Expired(d.actions, now, hours))
  }

  // ----- The handlers -----

  class Database {
    const ledger: LedgerStore
    const pending: PendingActionsRepository
    var audits: seq<AuditRow>

    function Value(): Data
      reads this, ledger, pending
    {
      Data(ledger.Value(), pending.rows, audits)
    }

    constructor ()
      ensures Value() == Data(Books([], [], 0), map[], [])
      ensures fresh(ledger) && fresh(pending)
    {
      ledger := new LedgerStore();
      pending := new PendingActionsRepository();
      audits := [];
    }

    method WriteAudit(row: AuditRow)
      modifies this`audits
      ensures audits == old(audits) + [row]
    {
      audits := audits + [row];
    }

    /** Undoes everything since `saved` was taken. */
    method Rollback(saved: Data)
      modifies this, ledger, pending
      ensures Value() == saved
    {
      ledger.wallets, ledger.entries, ledger.nextId :=
        saved.books.wallets, saved.books.entries, saved.books.nextId;
      pending.rows := saved.actions;
      audits := saved.audits;
    }

    /** The immediate branch, with its audit row; an error undoes it. */
    method AdjustAtOnce(user: Text, p: Payload) returns (reply: Reply)
      modifies this, ledger, pending
      ensures PayloadUnits(p).TypeError? ==> reply == Invalid && Value() == old(Value())
      ensures PayloadUnits(p).Ok? ==>
                var books := old(ledger.Value()); var entryIds := AdjustmentOf(books, p).entryIds;
                && reply == ExecutedNow(entryIds)
                && Value() == Data(Adjusted(books, p, PayloadUnits(p).value), old(pending.rows),
                                   old(audits) + [AdjustedNow(user, entryIds)])
    {
      var saved := Value();
      var result := ExecuteWalletAdjust(p, ledger);
      if result.TypeError? {
        Rollback(saved);
        return Invalid;
      }
      WriteAudit(AdjustedNow(user, result.value.entryIds));
      return ExecutedNow(result.value.entryIds);
    }

    method WalletAdjust(threshold: Decimal, user: Text, body: Payload, now: int) returns (reply: Reply)
      requires ledger.nextId !in pending.rows
      modifies this, ledger, pending
      ensures reply == AdjustReply(old(Value()), threshold, body)
      ensures Value() == AfterAdjust(old(Value()), threshold, user, body, now)
    {
      if !AmountPattern(body.amount) {
        return Invalid;
      }
      var amount := M.Parse(body.amount);
      if amount.TypeError? || IsZero(amount.value) || IsNegative(amount.value) {
        return Invalid;
      }
      if Compare(amount.value, threshold) > 0 {
        var actionId := ledger.NewId();
        pending.Create(actionId, WALLET_ADJUST, body, user, now);
        WriteAudit(Queued(user, actionId));
        return QueuedForApproval(actionId);
      }
      reply := AdjustAtOnce(user, body.(amount := M.Print(amount.value)));
    }

    method Approve(user: Text, id: nat, now: int) returns (reply: Reply)
      modifies this, pending
      ensures reply == DecisionReply(old(Value()), user, id)
      ensures Value() == AfterApprove(old(Value()), user, id, now)
      ensures reply == if id !in old(pending.rows) then NotFound
                       else if old(pending.rows)[id].requestedBy == user then Forbidden
                       else if old(pending.rows)[id].status != PENDING then Conflict else Done
      ensures reply == Done ==>
                var row := old(pending.rows)[id].(status := APPROVED, approvedBy := Some(user), approvedAt := now);
                pending.rows == old(pending.rows)[id := row] && audits == old(audits) + [ApprovedBy(user, id)]
      ensures reply != Done ==> pending.rows == old(pending.rows) && audits == old(audits)
    {
      if id !in pending.rows {
        return NotFound;
      }
      if pending.rows[id].requestedBy == user {
        return Forbidden;
      }
      var updated := pending.Approve(id, user, now);
      if updated.None? {
        return Conflict;
      }
      WriteAudit(ApprovedBy(user, id));
      return Done;
    }

    method Reject(user: Text, id: nat, reason: Text) returns (reply: Reply)
      modifies this, pending
      ensures reply == if reason == [] then Invalid else DecisionReply(old(Value()), user, id)
      ensures Value() == AfterReject(old(Value()), user, id, reason)
      ensures reply == if reason == [] then Invalid else if id !in old(pending.rows) then NotFound
                       else if old(pending.rows)[id].requestedBy == user then Forbidden
                       else if old(pending.rows)[id].status != PENDING then Conflict else Done
      ensures reply == Done ==>
                var row := old(pending.rows)[id].(status := REJECTED, rejectedBy := Some(user));
                pending.rows == old(pending.rows)[id := row] && audits == old(audits) + [RejectedBy(user, id)]
      ensures reply != Done ==> pending.rows == old(pending.rows) && audits == old(audits)
    {
      if reason == [] {
        return Invalid;
      }
      if id !in pending.rows {
        return NotFound;
      }
      if pending.rows[id].requestedBy == user {
        return Forbidden;
      }
      var updated := pending.Reject(id, user);
      if updated.None? {
        return Conflict;
      }
      WriteAudit(RejectedBy(user, id));
      return Done;
    }

    /** Every pending action older than the retention expires, and nothing else changes. */
    method ExpireStale(now: int, hours: int)
      modifies pending
      ensures pending.rows.Keys == old(pending.rows).Keys
      ensures forall id | id in pending.rows ::
                var was := old(pending.rows)[id];
                pending.rows[id] == if was.status == PENDING && was.requestedAt < now - hours * 3600000
                                    then was.(status := EXPIRED) else was
      ensures Value() == AfterExpire(old(Value()), now, hours)
    {
      pending.rows := Expired(pending.rows, now, hours);
    }
  }
}
