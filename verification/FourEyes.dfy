/** What every run of the approval protocol keeps: executed exactly once, by two different people,
    with the ledger pair to show for it. */
module FourEyes {
  import opened Texts
  import opened Canonical
  import opened Decimals
  import opened Ledger
  import opened PendingActions
  import opened Approvals
  import M = MoneyText
  import N = NumericColumns

  // ----- How an action changes -----

  predicate Decided(s: Status) { s == APPROVED || s == REJECTED || s == EXECUTED }

  /** From pending to anything, from approved to executed, and no further. */
  predicate MayBecome(s: Status, t: Status) {
    s == t || s == PENDING || (s == APPROVED && t == EXECUTED)
  }

  predicate Evolves(a: Action, b: Action) {
    && a.kind == b.kind && a.payload == b.payload
    && a.requestedBy == b.requestedBy && a.requestedAt == b.requestedAt
    && MayBecome(a.status, b.status)
    && (a.status != PENDING ==>
          a.approvedBy == b.approvedBy && a.approvedAt == b.approvedAt && a.rejectedBy == b.rejectedBy)
  }

  predicate AllEvolve(before: Actions, after: Actions) {
    forall id | id in before :: id in after && Evolves(before[id], after[id])
  }

  // ----- The invariant -----

  /** The first and the second approver check: nobody decides on a request of their own. */
  predicate ActionOk(a: Action) {
    && (a.approvedBy.Some? <==> a.status == APPROVED || a.status == EXECUTED)
    && (a.rejectedBy.Some? <==> a.status == REJECTED)
    && (a.approvedBy.Some? ==> a.approvedBy.value != a.requestedBy)
    && (a.rejectedBy.Some? ==> a.rejectedBy.value != a.requestedBy)
  }

  predicate ActionsOk(actions: Actions, nextId: nat) {
    forall id | id in actions :: id < nextId && ActionOk(actions[id])
  }

  predicate EntriesBelow(entries: seq<Entry>, nextId: nat) {
    forall e | e in entries :: e.leg.reference.Generated? ==> e.leg.reference.id < nextId
  }

  /** The two legs of an adjustment. */
  function Pair(p: Payload, a: Ledger.Adjustment): seq<Leg>
    requires PayloadUnits(p).Ok?
  {
    var units := PayloadUnits(p).value;
    [AdjustLeg(p, a.walletId, p.direction, units, a.referenceId),
     AdjustLeg(p, a.walletId, Opposite(p.direction), units, a.referenceId)]
  }

  predicate IsAdjustment(row: AuditRow) {
    row.Execution? && row.result.Adjustment?
  }

  function ReferenceOf(row: AuditRow): nat
    requires IsAdjustment(row)
  {
    row.result.adjustment.referenceId
  }

  /** The action of an audit row exists, and is what the row says. */
  predicate RowOk(actions: Actions, row: AuditRow) {
    match row
    case Execution(id, result) =>
      id in actions && actions[id].status == EXECUTED
      && (result.Adjustment? <==> actions[id].kind == WALLET_ADJUST)
      && (result.Adjustment? ==> PayloadUnits(actions[id].payload).Ok?)
    case ApprovedBy(user, id) => id in actions && actions[id].approvedBy == Some(user)
    case RejectedBy(user, id) => id in actions && actions[id].rejectedBy == Some(user)
    case _ => true
  }

  predicate RowsOk(actions: Actions, audits: seq<AuditRow>) {
    forall row | row in audits :: RowOk(actions, row)
  }

  /** The ledger holds exactly the pair that a success row reports. */
  predicate PairPosted(actions: Actions, entries: seq<Entry>, row: AuditRow)
    requires RowOk(actions, row) && IsAdjustment(row)
  {
    Referring(entries, ReferenceOf(row)) == Pair(actions[row.actionId].payload, row.result.adjustment)
  }

  predicate PairsPosted(d: Data, nextId: nat)
    requires RowsOk(d.actions, d.audits)
  {
    forall row | row in d.audits && IsAdjustment(row) ::
      ReferenceOf(row) < nextId && PairPosted(d.actions, d.books.entries, row)
  }

  predicate DistinctReferences(audits: seq<AuditRow>) {
    forall i, j | 0 <= i < j < |audits| && IsAdjustment(audits[i]) && IsAdjustment(audits[j]) ::
      ReferenceOf(audits[i]) != ReferenceOf(audits[j])
  }

  predicate IsExecution(row: AuditRow, id: nat) {
    row.Execution? && row.actionId == id
  }

  predicate IsDecision(row: AuditRow, id: nat) {
    (row.ApprovedBy? || row.RejectedBy?) && row.actionId == id
  }

  function Bit(b: bool): nat {
    if b then 1 else 0
  }

  /** How many success rows the action has. */
  function Executions(audits: seq<AuditRow>, id: nat): nat {
    if audits == [] then 0
    else
      var n := |audits| - 1;
      Executions(audits[..n], id) + Bit(IsExecution(audits[n], id))
  }

  /** How many audited decisions it has. */
  function Decisions(audits: seq<AuditRow>, id: nat): nat {
    if audits == [] then 0
    else
      var n := |audits| - 1;
      Decisions(audits[..n], id) + Bit(IsDecision(audits[n], id))
  }

  predicate CountedAt(actions: Actions, audits: seq<AuditRow>, id: nat)
    requires id in actions
  {
    && Executions(audits, id) == Bit(actions[id].status == EXECUTED)
    && Decisions(audits, id) == Bit(Decided(actions[id].status))
  }

  predicate Counted(actions: Actions, audits: seq<AuditRow>) {
    forall id | id in actions :: CountedAt(actions, audits, id)
  }

  /** An immediate adjustment, not above the threshold. */
  predicate IsSmall(t: Decimal, row: AuditRow, e: Entry) {
    row.AdjustedNow? && e.entryId in row.entryIds && Compare(N.OfUnits(e.leg.amount), t) <= 0
  }

  predicate IsExecuted(row: AuditRow, e: Entry) {
    IsAdjustment(row) && e.leg.reference == Generated(ReferenceOf(row))
  }

  predicate Traced(t: Decimal, audits: seq<AuditRow>, e: Entry) {
    exists row | row in audits :: IsSmall(t, row, e) || IsExecuted(row, e)
  }

  predicate AllTraced(t: Decimal, d: Data) {
    forall e | e in d.books.entries && e.leg.referenceType == ADJUSTMENT :: Traced(t, d.audits, e)
  }

  predicate DataOk(t: Decimal, d: Data) {
    && ActionsOk(d.actions, d.books.nextId)
    && EntriesBelow(d.books.entries, d.books.nextId)
    && RowsOk(d.actions, d.audits) && PairsPosted(d, d.books.nextId)
    && DistinctReferences(d.audits)
    && Counted(d.actions, d.audits)
    && AllTraced(t, d)
  }

  // Pollers.

  /** A polled row is out of date only in that it may have been executed since. */
  predicate Known(actions: Actions, r: Polled) {
    && r.actionId in actions
    && (actions[r.actionId].status == APPROVED || actions[r.actionId].status == EXECUTED)
    && actions[r.actionId].kind == r.action.kind && actions[r.actionId].payload == r.action.payload
  }

  /** Nothing committed uses the reference. */
  predicate Unused(d: Data, reference: nat) {
    && (forall e | e in d.books.entries :: e.leg.reference != Generated(reference))
    && (forall row | row in d.audits && IsAdjustment(row) :: ReferenceOf(row) != reference)
  }

  predicate Writes(w: Poller) {
    w.Written? && w.result.Adjustment?
  }

  predicate WrittenOk(d: Data, w: Poller)
    requires w.Written?
  {
    var a := w.row.action;
    if w.result.NotImplemented? then w.entries == [] && a.kind != WALLET_ADJUST
    else
      && a.kind == WALLET_ADJUST && PayloadUnits(a.payload).Ok?
      && |w.entries| == 2
      && [w.entries[0].leg, w.entries[1].leg] == Pair(a.payload, w.result.adjustment)
      && w.result.adjustment.referenceId < d.books.nextId
      && Unused(d, w.result.adjustment.referenceId)
  }

  predicate PollerOk(d: Data, w: Poller) {
    && (forall r | r in w.queue :: Known(d.actions, r))
    && (!w.Working? ==> Known(d.actions, w.row))
    && (w.Claimed? || w.Written? ==> d.actions[w.row.actionId].status == APPROVED)
    && (w.Written? ==> WrittenOk(d, w))
  }

  /** Two open transactions have claimed different rows and use different references. */
  predicate Apart(v: Poller, w: Poller) {
    && ((v.Claimed? || v.Written?) && (w.Claimed? || w.Written?) ==> v.row.actionId != w.row.actionId)
    && (Writes(v) && Writes(w) ==> v.result.adjustment.referenceId != w.result.adjustment.referenceId)
  }

  predicate PollersOk(d: Data, pollers: map<nat, Poller>) {
    && (forall p | p in pollers :: PollerOk(d, pollers[p]))
    && (forall p, q | p in pollers && q in pollers && p != q :: Apart(pollers[p], pollers[q]))
  }

  predicate Inv(t: Decimal, st: State) {
    DataOk(t, st.data) && PollersOk(st.data, st.pollers)
  }

  // ----- Growing sequences -----

  lemma CountSnoc(audits: seq<AuditRow>, row: AuditRow, id: nat)
    ensures Executions(audits + [row], id) == Executions(audits, id) + Bit(IsExecution(row, id))
    ensures Decisions(audits + [row], id) == Decisions(audits, id) + Bit(IsDecision(row, id))
  {
    assert (audits + [row])[..|audits|] == audits;
  }

  lemma {:induction false} CountZero(actions: Actions, audits: seq<AuditRow>, id: nat)
    requires RowsOk(actions, audits) && id !in actions
    ensures Executions(audits, id) == 0 && Decisions(audits, id) == 0
  {
    if audits != [] {
      CountZero(actions, audits[..|audits| - 1], id);
      assert RowOk(actions, audits[|audits| - 1]);
    }
  }

  lemma TracedStays(t: Decimal, audits: seq<AuditRow>, row: AuditRow, e: Entry)
    requires Traced(t, audits, e)
    ensures Traced(t, audits + [row], e)
  {
    var r :| r in audits && (IsSmall(t, r, e) || IsExecuted(r, e));
    assert r in audits + [row];
  }

  lemma AllTracedStays(t: Decimal, d: Data, d': Data, row: AuditRow)
    requires AllTraced(t, d) && d'.books.entries == d.books.entries && d'.audits == d.audits + [row]
    ensures AllTraced(t, d')
  {
    forall e | e in d'.books.entries && e.leg.referenceType == ADJUSTMENT ensures Traced(t, d'.audits, e) {
      TracedStays(t, d.audits, row, e);
    }
  }

  lemma DistinctSnoc(audits: seq<AuditRow>, row: AuditRow)
    requires DistinctReferences(audits)
    requires IsAdjustment(row) ==> forall r | r in audits && IsAdjustment(r) :: ReferenceOf(r) != ReferenceOf(row)
    ensures DistinctReferences(audits + [row])
  {
  }

  // ----- Each kind of change keeps the data in order -----

  predicate IsNeutral(row: AuditRow) {
    row.Queued? || row.AdjustedNow? || row.ExecutionFailed?
  }

  lemma AuditGrows(t: Decimal, d: Data, row: AuditRow)
    requires DataOk(t, d) && IsNeutral(row)
    ensures DataOk(t, d.(audits := d.audits + [row]))
  {
    var d' := d.(audits := d.audits + [row]);
    forall id | id in d.actions ensures CountedAt(d'.actions, d'.audits, id) {
      CountSnoc(d.audits, row, id);
      assert CountedAt(d.actions, d.audits, id);
    }
    AllTracedStays(t, d, d', row);
    DistinctSnoc(d.audits, row);
  }

  lemma BooksGrow(t: Decimal, d: Data, wallets: seq<Wallet>, nextId: nat)
    requires DataOk(t, d) && nextId >= d.books.nextId
    ensures DataOk(t, d.(books := Books(wallets, d.books.entries, nextId)))
  {
    var d' := d.(books := Books(wallets, d.books.entries, nextId));
    forall row | row in d'.audits && IsAdjustment(row)
      ensures ReferenceOf(row) < nextId && PairPosted(d'.actions, d'.books.entries, row)
    {
      assert PairPosted(d.actions, d.books.entries, row);
    }
  }

  lemma EntryGrows(t: Decimal, d: Data, e: Entry)
    requires DataOk(t, d)
    requires e.leg.reference.Generated? ==>
               && e.leg.reference.id < d.books.nextId
               && forall row | row in d.audits && IsAdjustment(row) :: ReferenceOf(row) != e.leg.reference.id
    requires e.leg.referenceType == ADJUSTMENT ==> Traced(t, d.audits, e)
    ensures DataOk(t, d.(books := d.books.(entries := d.books.entries + [e])))
  {
    var d' := d.(books := d.books.(entries := d.books.entries + [e]));
    forall row | row in d'.audits && IsAdjustment(row)
      ensures ReferenceOf(row) < d'.books.nextId && PairPosted(d'.actions, d'.books.entries, row)
    {
      assert PairPosted(d.actions, d.books.entries, row);
      ReferringSnoc(d.books.entries, e, ReferenceOf(row));
    }
  }

  lemma ActionAdded(t: Decimal, d: Data, kind: Kind, payload: Payload, user: Text, now: int)
    requires DataOk(t, d)
    ensures DataOk(t, AfterCreate(d, kind, payload, user, now))
  {
    var id, d' := d.books.nextId, AfterCreate(d, kind, payload, user, now);
    CountZero(d.actions, d.audits, id);
    forall x | x in d'.actions ensures CountedAt(d'.actions, d'.audits, x) {
      assert x in d.actions ==> CountedAt(d.actions, d.audits, x);
    }
    forall row | row in d.audits ensures RowOk(d'.actions, row) {
      assert RowOk(d.actions, row);
    }
    forall row | row in d'.audits && IsAdjustment(row)
      ensures ReferenceOf(row) < d'.books.nextId && PairPosted(d'.actions, d'.books.entries, row)
    {
      assert PairPosted(d.actions, d.books.entries, row);
    }
  }

  /** Rows about decided actions stay right when only pending actions change. */
  lemma PendingChange(t: Decimal, d: Data, actions: Actions)
    requires DataOk(t, d) && d.actions.Keys == actions.Keys
    requires forall id | id in d.actions && d.actions[id].status != PENDING :: actions[id] == d.actions[id]
    ensures RowsOk(actions, d.audits)
    ensures PairsPosted(d.(actions := actions), d.books.nextId)
  {
    forall row | row in d.audits ensures RowOk(actions, row) {
      assert RowOk(d.actions, row);
      assert row.ApprovedBy? || row.RejectedBy? ==> ActionOk(d.actions[row.actionId]);
    }
    forall row | row in d.audits && IsAdjustment(row)
      ensures ReferenceOf(row) < d.books.nextId && PairPosted(actions, d.books.entries, row)
    {
      assert RowOk(d.actions, row) && PairPosted(d.actions, d.books.entries, row);
    }
  }

  /** A pending action is approved or rejected by somebody else. */
  predicate Settles(a: Action, b: Action, row: AuditRow, id: nat) {
    && a.status == PENDING && ActionOk(b)
    && (|| (b.status == APPROVED && row == ApprovedBy(b.approvedBy.value, id))
        || (b.status == REJECTED && row == RejectedBy(b.rejectedBy.value, id)))
  }

  lemma ActionSettled(t: Decimal, d: Data, id: nat, b: Action, row: AuditRow)
    requires DataOk(t, d) && id in d.actions && ActionOk(b) && Settles(d.actions[id], b, row, id)
    ensures DataOk(t, d.(actions := d.actions[id := b], audits := d.audits + [row]))
  {
    var d' := d.(actions := d.actions[id := b], audits := d.audits + [row]);
    PendingChange(t, d, d'.actions);
    forall x | x in d'.actions ensures CountedAt(d'.actions, d'.audits, x) {
      CountSnoc(d.audits, row, x);
      assert CountedAt(d.actions, d.audits, x);
    }
    AllTracedStays(t, d, d', row);
    DistinctSnoc(d.audits, row);
    forall r | r in d'.audits ensures RowOk(d'.actions, r) {
    }
  }

  lemma ActionsExpired(t: Decimal, d: Data, now: int, hours: int)
    requires DataOk(t, d)
    ensures DataOk(t, AfterExpire(d, now, hours))
  {
    var d' := AfterExpire(d, now, hours);
    PendingChange(t, d, d'.actions);
    forall x | x in d'.actions ensures CountedAt(d'.actions, d'.audits, x) && ActionOk(d'.actions[x]) {
      assert CountedAt(d.actions, d.audits, x) && ActionOk(d.actions[x]);
    }
  }

  lemma CommitRows(t: Decimal, d: Data, w: Poller)
    requires DataOk(t, d) && w.Written? && PollerOk(d, w)
    ensures var d' := AfterCommit(d, w.row.actionId, w.wallets, w.entries, w.result);
            RowsOk(d'.actions, d'.audits) && DistinctReferences(d'.audits)
  {
    var row := Execution(w.row.actionId, w.result);
    var d' := AfterCommit(d, w.row.actionId, w.wallets, w.entries, w.result);
    forall r | r in d.audits ensures RowOk(d'.actions, r) {
      assert RowOk(d.actions, r);
    }
    assert RowOk(d'.actions, row);
    DistinctSnoc(d.audits, row);
  }

  lemma TwoAppended(entries: seq<Entry>, e: Entry, f: Entry, own: nat, reference: nat)
    requires e.leg.reference == Generated(own) && f.leg.reference == Generated(own)
    requires forall x | x in entries :: x.leg.reference != Generated(own)
    ensures Referring(entries + [e] + [f], reference)
            == if reference == own then [e.leg, f.leg] else Referring(entries, reference)
  {
    ReferringSnoc(entries, e, reference);
    ReferringSnoc(entries + [e], f, reference);
    if reference == own {
      ReferringNone(entries, reference);
    }
  }

  lemma PairAppended(d: Data, w: Poller, reference: nat)
    requires w.Written? && WrittenOk(d, w)
    ensures var es := d.books.entries + w.entries;
            if Writes(w) && reference == w.result.adjustment.referenceId then
              Referring(es, reference) == Pair(w.row.action.payload, w.result.adjustment)
            else Referring(es, reference) == Referring(d.books.entries, reference)
  {
    var es := d.books.entries;
    if Writes(w) {
      assert es + w.entries == es + [w.entries[0]] + [w.entries[1]];
      WrittenLegs(d, w, w.entries[0]);
      WrittenLegs(d, w, w.entries[1]);
      TwoAppended(es, w.entries[0], w.entries[1], w.result.adjustment.referenceId, reference);
    } else {
      assert es + w.entries == es;
    }
  }

  lemma CommitPairs(t: Decimal, d: Data, w: Poller)
    requires DataOk(t, d) && w.Written? && PollerOk(d, w)
    ensures var d' := AfterCommit(d, w.row.actionId, w.wallets, w.entries, w.result);
            RowsOk(d'.actions, d'.audits) && PairsPosted(d', d.books.nextId)
  {
    CommitRows(t, d, w);
    var d' := AfterCommit(d, w.row.actionId, w.wallets, w.entries, w.result);
    forall row | row in d'.audits && IsAdjustment(row)
      ensures ReferenceOf(row) < d.books.nextId && PairPosted(d'.actions, d'.books.entries, row)
    {
      PairAppended(d, w, ReferenceOf(row));
      if row in d.audits {
        assert RowOk(d.actions, row) && PairPosted(d.actions, d.books.entries, row);
      }
    }
  }

  lemma CommitTraced(t: Decimal, d: Data, w: Poller)
    requires DataOk(t, d) && w.Written? && PollerOk(d, w)
    ensures var d' := AfterCommit(d, w.row.actionId, w.wallets, w.entries, w.result);
            AllTraced(t, d') && EntriesBelow(d'.books.entries, d'.books.nextId)
  {
    var row := Execution(w.row.actionId, w.result);
    var d' := AfterCommit(d, w.row.actionId, w.wallets, w.entries, w.result);
    forall e | e in d'.books.entries && e.leg.referenceType == ADJUSTMENT ensures Traced(t, d'.audits, e) {
      if e in d.books.entries {
        TracedStays(t, d.audits, row, e);
      } else {
        WrittenLegs(d, w, e);
        assert row in d'.audits && IsExecuted(row, e);
      }
    }
    forall e | e in d'.books.entries && e.leg.reference.Generated?
      ensures e.leg.reference.id < d'.books.nextId
    {
      if e !in d.books.entries {
        WrittenLegs(d, w, e);
      }
    }
  }

  lemma WrittenLegs(d: Data, w: Poller, e: Entry)
    requires w.Written? && WrittenOk(d, w) && e in w.entries
    ensures Writes(w) && e.leg.reference == Generated(w.result.adjustment.referenceId)
  {
    var pair := Pair(w.row.action.payload, w.result.adjustment);
    assert w.entries[0].leg == pair[0] && w.entries[1].leg == pair[1];
  }

  lemma CommitCounts(t: Decimal, d: Data, w: Poller)
    requires DataOk(t, d) && w.Written? && PollerOk(d, w)
    ensures var d' := AfterCommit(d, w.row.actionId, w.wallets, w.entries, w.result);
            Counted(d'.actions, d'.audits) && ActionsOk(d'.actions, d'.books.nextId)
  {
    var row := Execution(w.row.actionId, w.result);
    var d' := AfterCommit(d, w.row.actionId, w.wallets, w.entries, w.result);
    forall x | x in d'.actions ensures CountedAt(d'.actions, d'.audits, x) && ActionOk(d'.actions[x]) {
      CountSnoc(d.audits, row, x);
      assert CountedAt(d.actions, d.audits, x) && ActionOk(d.actions[x]);
    }
  }

  lemma CommitKeepsData(t: Decimal, d: Data, w: Poller)
    requires DataOk(t, d) && w.Written? && PollerOk(d, w)
    ensures DataOk(t, AfterCommit(d, w.row.actionId, w.wallets, w.entries, w.result))
  {
    CommitPairs(t, d, w);
    CommitRows(t, d, w);
    CommitTraced(t, d, w);
    CommitCounts(t, d, w);
  }

  // ----- Handlers -----

  /** What is executed at once is not above the threshold, as the ledger stores it. */
  lemma ImmediateIsSmall(t: Decimal, d: Data, body: Payload)
    requires AdjustReply(d, t, body).ExecutedNow?
    ensures var canonical := body.(amount := M.Print(M.Parse(body.amount).value));
            Compare(N.OfUnits(PayloadUnits(canonical).value), t) <= 0
  {
    SmallAmount(body.amount);
    PathsPostEqualLegs(body);
    N.StoredExactly(M.Parse(body.amount).value);
  }

  lemma AdjustKeepsData(t: Decimal, d: Data, user: Text, body: Payload, now: int)
    requires DataOk(t, d)
    ensures DataOk(t, AfterAdjust(d, t, user, body, now))
  {
    var reply := AdjustReply(d, t, body);
    if reply.QueuedForApproval? {
      ActionAdded(t, d, WALLET_ADJUST, body, user, now);
      AuditGrows(t, AfterCreate(d, WALLET_ADJUST, body, user, now), Queued(user, reply.actionId));
    } else if reply.ExecutedNow? {
      ImmediateIsSmall(t, d, body);
      var canonical := body.(amount := M.Print(M.Parse(body.amount).value));
      SmallPairPosted(t, d, AdjustedNow(user, reply.entryIds), canonical, PayloadUnits(canonical).value);
    }
  }

  lemma SmallPairPosted(t: Decimal, d: Data, row: AuditRow, p: Payload, amount: int)
    requires DataOk(t, d) && row.AdjustedNow? && row.entryIds == AdjustmentOf(d.books, p).entryIds
    requires Compare(N.OfUnits(amount), t) <= 0
    ensures DataOk(t, Data(Adjusted(d.books, p, amount), d.actions, d.audits + [row]))
  {
    var after := Adjusted(d.books, p, amount);
    var n := |d.books.entries|;
    var e, e' := after.entries[n], after.entries[n + 1];
    AuditGrows(t, d, row);
    var d1 := d.(audits := d.audits + [row]);
    BooksGrow(t, d1, after.wallets, after.nextId);
    var d2 := d1.(books := Books(after.wallets, d.books.entries, after.nextId));
    assert row in d2.audits && IsSmall(t, row, e) && IsSmall(t, row, e');
    EntryGrows(t, d2, e);
    EntryGrows(t, d2.(books := d2.books.(entries := d.books.entries + [e])), e');
    assert after.entries == d.books.entries + [e] + [e'];
  }

  lemma PostKeepsData(t: Decimal, d: Data, l: Label)
    requires DataOk(t, d) && l.Post?
    ensures DataOk(t, AfterPost(d, l))
  {
    var after := AfterPost(d, l).books;
    if l.purpose != ADJUSTMENT {
      BooksGrow(t, d, after.wallets, after.nextId);
      EntryGrows(t, d.(books := Books(after.wallets, d.books.entries, after.nextId)), after.entries[|d.books.entries|]);
    }
  }

  lemma DecisionKeepsData(t: Decimal, d: Data, l: Label)
    requires DataOk(t, d) && (l.Approve? || l.Reject?)
    ensures DataOk(t, if l.Approve? then AfterApprove(d, l.user, l.id, l.now) else AfterReject(d, l.user, l.id, l.reason))
  {
    if DecisionReply(d, l.user, l.id) == Done {
      var a := d.actions[l.id];
      assert ActionOk(a);
      if l.Approve? {
        ActionSettled(t, d, l.id, Approved(a, l.user, l.now), ApprovedBy(l.user, l.id));
      } else {
        ActionSettled(t, d, l.id, Rejected(a, l.user), RejectedBy(l.user, l.id));
      }
    }
  }

  // ----- Pollers -----

  /** Nothing that pollers depend on changes: decided actions, and references not used yet. */
  predicate Undisturbed(d: Data, d': Data) {
    && d.books.nextId <= d'.books.nextId
    && (forall id | id in d.actions && Decided(d.actions[id].status) ::
          id in d'.actions && d'.actions[id] == d.actions[id])
    && (forall reference: nat | reference < d.books.nextId && Unused(d, reference) :: Unused(d', reference))
  }

  lemma PollersStay(d: Data, d': Data, pollers: map<nat, Poller>)
    requires PollersOk(d, pollers) && Undisturbed(d, d')
    ensures PollersOk(d', pollers)
  {
    forall p | p in pollers ensures PollerOk(d', pollers[p]) {
      assert PollerOk(d, pollers[p]);
    }
  }

  lemma PollersPut(d: Data, pollers: map<nat, Poller>, p: nat, w: Poller)
    requires PollersOk(d, pollers) && PollerOk(d, w)
    requires forall q | q in pollers && q != p :: Apart(w, pollers[q]) && Apart(pollers[q], w)
    ensures PollersOk(d, pollers[p := w])
  {
  }

  /** Only what a commit adds can use a reference that was free, and only its own. */
  lemma CommitUses(d: Data, w: Poller, reference: nat)
    requires w.Written? && PollerOk(d, w) && Unused(d, reference)
    requires Writes(w) ==> reference != w.result.adjustment.referenceId
    ensures Unused(AfterCommit(d, w.row.actionId, w.wallets, w.entries, w.result), reference)
  {
    forall e | e in w.entries ensures e.leg.reference != Generated(reference) {
      WrittenLegs(d, w, e);
    }
  }

  lemma CommitKeepsOther(d: Data, w: Poller, v: Poller)
    requires w.Written? && PollerOk(d, w) && PollerOk(d, v) && Apart(w, v)
    ensures PollerOk(AfterCommit(d, w.row.actionId, w.wallets, w.entries, w.result), v)
  {
    if Writes(v) {
      CommitUses(d, w, v.result.adjustment.referenceId);
    }
  }

  lemma CommitKeepsOthers(d: Data, pollers: map<nat, Poller>, p: nat)
    requires PollersOk(d, pollers) && p in pollers && pollers[p].Written?
    ensures var w := pollers[p];
            PollersOk(AfterCommit(d, w.row.actionId, w.wallets, w.entries, w.result), pollers - {p})
  {
    var w := pollers[p];
    forall q | q in pollers && q != p
      ensures PollerOk(AfterCommit(d, w.row.actionId, w.wallets, w.entries, w.result), pollers[q])
    {
      CommitKeepsOther(d, w, pollers[q]);
    }
  }

  lemma CommitKeepsQueue(d: Data, w: Poller, v: Poller)
    requires w.Written? && PollerOk(d, w) && (v == Working(w.queue) || v == Failing(w.row, w.queue))
    ensures PollerOk(AfterCommit(d, w.row.actionId, w.wallets, w.entries, w.result), v)
  {
  }

  lemma HandlerUndisturbed(t: Decimal, st: State, l: Label)
    requires DataOk(t, st.data)
    requires l.Adjust? || l.Create? || l.Approve? || l.Reject? || l.Expire? || l.Post?
    ensures Undisturbed(st.data, Step(t, st, l).data)
    ensures Step(t, st, l).pollers == st.pollers
  {
    match l
    case Adjust(user, body, now) => AdjustUndisturbed(t, st.data, user, body, now);
    case Post(_, _, _, _, _, _) => PostUndisturbed(t, st.data, l);
    case Create(kind, payload, user, now) => CreateUndisturbed(t, st.data, kind, payload, user, now);
    case Approve(_, _, _) => DecisionUndisturbed(st.data, l);
    case Reject(_, _, _) => DecisionUndisturbed(st.data, l);
    case Expire(_, _) =>
  }

  lemma DecisionUndisturbed(d: Data, l: Label)
    requires l.Approve? || l.Reject?
    ensures Undisturbed(d, if l.Approve? then AfterApprove(d, l.user, l.id, l.now) else AfterReject(d, l.user, l.id, l.reason))
  {
  }

  lemma CreateUndisturbed(t: Decimal, d: Data, kind: Kind, payload: Payload, user: Text, now: int)
    requires DataOk(t, d)
    ensures Undisturbed(d, AfterCreate(d, kind, payload, user, now))
  {
  }

  lemma PostUndisturbed(t: Decimal, d: Data, l: Label)
    requires DataOk(t, d) && l.Post?
    ensures Undisturbed(d, AfterPost(d, l))
  {
  }

  lemma PairUndisturbed(d: Data, row: AuditRow, p: Payload, amount: int)
    requires IsNeutral(row)
    ensures Undisturbed(d, Data(Adjusted(d.books, p, amount), d.actions, d.audits + [row]))
  {
    var d' := Data(Adjusted(d.books, p, amount), d.actions, d.audits + [row]);
    var n := |d.books.entries|;
    var e, e' := d'.books.entries[n], d'.books.entries[n + 1];
    assert d'.books.entries == d.books.entries + [e] + [e'];
    assert e.leg.reference.id >= d.books.nextId && e'.leg.reference == e.leg.reference;
  }

  lemma AdjustUndisturbed(t: Decimal, d: Data, user: Text, body: Payload, now: int)
    requires DataOk(t, d)
    ensures Undisturbed(d, AfterAdjust(d, t, user, body, now))
  {
    var reply := AdjustReply(d, t, body);
    if reply.ExecutedNow? {
      var canonical := body.(amount := M.Print(M.Parse(body.amount).value));
      PairUndisturbed(d, AdjustedNow(user, reply.entryIds), canonical, PayloadUnits(canonical).value);
    } else if reply.QueuedForApproval? {
      CreateUndisturbed(t, d, WALLET_ADJUST, body, user, now);
    }
  }

  lemma HandlerKeepsData(t: Decimal, st: State, l: Label)
    requires DataOk(t, st.data)
    requires l.Adjust? || l.Create? || l.Approve? || l.Reject? || l.Expire? || l.Post?
    ensures DataOk(t, Step(t, st, l).data)
  {
    match l
    case Adjust(user, body, now) => AdjustKeepsData(t, st.data, user, body, now);
    case Create(kind, payload, user, now) => ActionAdded(t, st.data, kind, payload, user, now);
    case Expire(now, hours) => ActionsExpired(t, st.data, now, hours);
    case Post(_, _, _, _, _, _) => PostKeepsData(t, st.data, l);
    case _ => DecisionKeepsData(t, st.data, l);
  }

  lemma DispatchedOk(t: Decimal, st: State, w: Poller)
    requires DataOk(t, st.data) && PollersOk(st.data, st.pollers) && w.Claimed? && PollerOk(st.data, w)
    requires DispatchOutcome(st.data.books, w.row.action).Ok?
    ensures var books := st.data.books;
            var after := DispatchBooks(books, w.row.action);
            var d' := st.data.(books := books.(nextId := after.nextId));
            var v := Written(w.row, w.queue, after.wallets[|books.wallets|..], after.entries[|books.entries|..],
                             DispatchOutcome(books, w.row.action).value);
            && DataOk(t, d') && PollersOk(d', st.pollers) && PollerOk(d', v)
            && (Writes(v) ==> v.result.adjustment.referenceId >= books.nextId)
  {
    var d, books := st.data, st.data.books;
    var after := DispatchBooks(books, w.row.action);
    var d' := d.(books := books.(nextId := after.nextId));
    BooksGrow(t, d, books.wallets, after.nextId);
    PollersStay(d, d', st.pollers);
    if w.row.action.kind == WALLET_ADJUST {
      FreshUnused(t, d, AdjustmentOf(books, w.row.action.payload).referenceId);
    }
  }

  lemma FreshUnused(t: Decimal, d: Data, reference: nat)
    requires DataOk(t, d) && reference >= d.books.nextId
    ensures Unused(d, reference)
  {
  }

  lemma DispatchKeepsInv(t: Decimal, st: State, p: nat)
    requires Inv(t, st) && p in st.pollers && st.pollers[p].Claimed?
    ensures Inv(t, DispatchStep(st, p, st.pollers[p].row, st.pollers[p].queue))
  {
    var w := st.pollers[p];
    var outcome := DispatchOutcome(st.data.books, w.row.action);
    if outcome.TypeError? {
      PollersPut(st.data, st.pollers, p, Failing(w.row, w.queue));
    } else {
      DispatchedOk(t, st, w);
      var next := DispatchStep(st, p, w.row, w.queue);
      forall q | q in st.pollers && q != p
        ensures Apart(next.pollers[p], st.pollers[q]) && Apart(st.pollers[q], next.pollers[p])
      {
        assert Apart(w, st.pollers[q]) && PollerOk(st.data, st.pollers[q]);
      }
      PollersPut(next.data, st.pollers, p, next.pollers[p]);
    }
  }

  lemma ClaimKeepsInv(t: Decimal, st: State, p: nat)
    requires Inv(t, st) && p in st.pollers && st.pollers[p].Working? && st.pollers[p].queue != []
    ensures Inv(t, ClaimStep(st, p, st.pollers[p].queue[0], st.pollers[p].queue[1..]))
  {
    var w := st.pollers[p];
    var next := ClaimStep(st, p, w.queue[0], w.queue[1..]);
    assert PollerOk(st.data, w) && Known(st.data.actions, w.queue[0]);
    if next != st {
      forall q | q in st.pollers && q != p
        ensures Apart(next.pollers[p], st.pollers[q]) && Apart(st.pollers[q], next.pollers[p])
      {
        assert !Holds(st.pollers[q], w.queue[0].actionId);
      }
      PollersPut(st.data, st.pollers, p, next.pollers[p]);
    }
  }

  lemma CommitKeepsInv(t: Decimal, st: State, p: nat, v: Poller)
    requires Inv(t, st) && p in st.pollers && st.pollers[p].Written?
    requires var w := st.pollers[p]; v == Working(w.queue) || v == Failing(w.row, w.queue)
    ensures var w := st.pollers[p];
            Inv(t, State(AfterCommit(st.data, w.row.actionId, w.wallets, w.entries, w.result), st.pollers[p := v]))
  {
    var d, w := st.data, st.pollers[p];
    assert PollerOk(d, w);
    CommitKeepsData(t, d, w);
    CommitKeepsOthers(d, st.pollers, p);
    CommitKeepsQueue(d, w, v);
    IdlePut(AfterCommit(d, w.row.actionId, w.wallets, w.entries, w.result), st.pollers, p, v);
  }

  lemma IdlePut(d: Data, pollers: map<nat, Poller>, p: nat, w: Poller)
    requires PollersOk(d, pollers - {p}) && PollerOk(d, w) && (w.Working? || w.Failing?)
    ensures PollersOk(d, pollers[p := w])
  {
    PollersPut(d, pollers - {p}, p, w);
    assert (pollers - {p})[p := w] == pollers[p := w];
  }

  lemma FailureKeepsInv(t: Decimal, st: State, p: nat, written: bool)
    requires Inv(t, st) && p in st.pollers && st.pollers[p].Failing?
    ensures var w := st.pollers[p];
            var audits := if written then st.data.audits + [ExecutionFailed(w.row.actionId)] else st.data.audits;
            Inv(t, State(st.data.(audits := audits), st.pollers[p := Working(w.queue)]))
  {
    var w := st.pollers[p];
    assert PollerOk(st.data, w);
    PollersPut(st.data, st.pollers, p, Working(w.queue));
    if written {
      var row := ExecutionFailed(w.row.actionId);
      AuditGrows(t, st.data, row);
      PollersStay(st.data, st.data.(audits := st.data.audits + [row]), st.pollers[p := Working(w.queue)]);
    }
  }

  lemma ThrowKeepsInv(t: Decimal, st: State, p: nat)
    requires Inv(t, st) && p in st.pollers && !st.pollers[p].Working?
    ensures Inv(t, st.(pollers := st.pollers[p := Failing(st.pollers[p].row, st.pollers[p].queue)]))
  {
    var w := st.pollers[p];
    assert PollerOk(st.data, w);
    PollersPut(st.data, st.pollers, p, Failing(w.row, w.queue));
  }

  lemma PollerKeepsInv(t: Decimal, st: State, l: Label)
    requires Inv(t, st) && (l.Claim? || l.Dispatch? || l.Commit? || l.Throw? || l.WriteFailure? || l.SkipFailure?)
    requires l.poller in st.pollers
    ensures Inv(t, PollerStep(st, l, st.pollers[l.poller]))
  {
    var p, w := l.poller, st.pollers[l.poller];
    if l.Claim? && w.Working? && w.queue != [] {
      ClaimKeepsInv(t, st, p);
    } else if l.Dispatch? && w.Claimed? {
      DispatchKeepsInv(t, st, p);
    } else if l.Commit? && w.Written? {
      CommitKeepsInv(t, st, p, if l.acknowledged then Working(w.queue) else Failing(w.row, w.queue));
    } else if l.Throw? && (w.Claimed? || w.Written?) {
      ThrowKeepsInv(t, st, p);
    } else if w.Failing? && (l.WriteFailure? || l.SkipFailure?) {
      FailureKeepsInv(t, st, p, l.WriteFailure?);
      assert st.data.(audits := st.data.audits) == st.data;
    }
  }

  predicate ByPoller(l: Label) {
    l.Claim? || l.Dispatch? || l.Commit? || l.Throw? || l.WriteFailure? || l.SkipFailure?
  }

  lemma PollKeepsInv(t: Decimal, st: State, p: nat, rows: seq<Polled>)
    requires Inv(t, st)
    ensures Inv(t, Step(t, st, Poll(p, rows))) && Inv(t, Step(t, st, Stop(p)))
  {
    if p !in st.pollers && IsPoll(st.data.actions, rows) {
      PollersPut(st.data, st.pollers, p, Working(rows));
    }
  }

  lemma StepKeepsInv(t: Decimal, st: State, l: Label)
    requires Inv(t, st)
    ensures Inv(t, Step(t, st, l))
  {
    if l.Poll? {
      PollKeepsInv(t, st, l.poller, l.rows);
    } else if l.Stop? {
      PollKeepsInv(t, st, l.poller, []);
    } else if ByPoller(l) {
      if l.poller in st.pollers { PollerKeepsInv(t, st, l); }
    } else {
      HandlerKeepsData(t, st, l);
      HandlerUndisturbed(t, st, l);
      PollersStay(st.data, Step(t, st, l).data, st.pollers);
    }
  }

  lemma {:induction false} RunKeepsInv(t: Decimal, labels: seq<Label>)
    ensures Inv(t, Run(t, labels))
  {
    if labels != [] {
      RunKeepsInv(t, labels[..|labels| - 1]);
      StepKeepsInv(t, Run(t, labels[..|labels| - 1]), labels[|labels| - 1]);
    }
  }

  // ----- Main results -----

  /** In every run an action is executed exactly when it has one success row, and never more than
      one; exactly the decided actions have an audited decision, one each. */
  lemma ExecutedOnce(t: Decimal, labels: seq<Label>, id: nat)
    requires id in Run(t, labels).data.actions
    ensures var d := Run(t, labels).data;
            && Executions(d.audits, id) == Bit(d.actions[id].status == EXECUTED)
            && Decisions(d.audits, id) == Bit(Decided(d.actions[id].status))
  {
    RunKeepsInv(t, labels);
    assert CountedAt(Run(t, labels).data.actions, Run(t, labels).data.audits, id);
  }

  lemma {:induction false} FindExecution(audits: seq<AuditRow>, id: nat)
    requires Executions(audits, id) > 0
    ensures exists row :: row in audits && IsExecution(row, id)
  {
    var n := |audits| - 1;
    if IsExecution(audits[n], id) {
      assert audits[n] in audits;
    } else {
      FindExecution(audits[..n], id);
      var row :| row in audits[..n] && IsExecution(row, id);
      assert row in audits;
    }
  }

  /** An executed wallet adjustment has been dispatched exactly once: its success row names the
      reference under which the ledger holds the pair of its payload, and nothing else. */
  lemma ExecutedPair(t: Decimal, labels: seq<Label>, id: nat)
    requires var d := Run(t, labels).data;
             id in d.actions && d.actions[id].status == EXECUTED && d.actions[id].kind == WALLET_ADJUST
    ensures var d := Run(t, labels).data;
            PayloadUnits(d.actions[id].payload).Ok?
            && exists a: Ledger.Adjustment ::
                 && Execution(id, DispatchResult.Adjustment(a)) in d.audits
                 && Referring(d.books.entries, a.referenceId) == Pair(d.actions[id].payload, a)
  {
    RunKeepsInv(t, labels);
    var d := Run(t, labels).data;
    ExecutedOnce(t, labels, id);
    FindExecution(d.audits, id);
    var row :| row in d.audits && IsExecution(row, id);
    assert RowOk(d.actions, row);
    assert PairPosted(d.actions, d.books.entries, row);
    assert row == Execution(id, DispatchResult.Adjustment(row.result.adjustment));
  }

  /** Different executions never share a reference. */
  lemma ExecutionsApart(t: Decimal, labels: seq<Label>, i: nat, j: nat)
    requires var audits := Run(t, labels).data.audits;
             && i < |audits| && j < |audits| && IsAdjustment(audits[i]) && IsAdjustment(audits[j])
             && ReferenceOf(audits[i]) == ReferenceOf(audits[j])
    ensures i == j
  {
    RunKeepsInv(t, labels);
  }

  /** Four eyes: an adjustment entry above the threshold belongs to an executed action, with the
      action's own amount, and approved by somebody else than the one who asked for it. */
  lemma AboveThreshold(t: Decimal, labels: seq<Label>, e: Entry)
    requires e in Run(t, labels).data.books.entries && e.leg.referenceType == ADJUSTMENT
    requires Compare(N.OfUnits(e.leg.amount), t) > 0
    ensures var d := Run(t, labels).data;
            exists id | id in d.actions ::
              var a := d.actions[id];
              && a.kind == WALLET_ADJUST && a.status == EXECUTED
              && PayloadUnits(a.payload) == Ok(e.leg.amount)
              && a.approvedBy.Some? && a.approvedBy.value != a.requestedBy
  {
    RunKeepsInv(t, labels);
    var d := Run(t, labels).data;
    assert Traced(t, d.audits, e);
    var row :| row in d.audits && IsExecuted(row, e);
    assert RowOk(d.actions, row) && PairPosted(d.actions, d.books.entries, row);
    ReferringMember(d.books.entries, ReferenceOf(row), e);
    assert ActionOk(d.actions[row.actionId]);
  }

  lemma HandlerEvolves(t: Decimal, st: State, l: Label)
    requires ActionsOk(st.data.actions, st.data.books.nextId)
    requires l.Adjust? || l.Create? || l.Approve? || l.Reject? || l.Expire? || l.Post?
    ensures AllEvolve(st.data.actions, Step(t, st, l).data.actions)
  {
    match l
    case Adjust(user, body, now) => AdjustEvolves(t, st.data, user, body, now);
    case Expire(_, _) =>
    case Create(_, _, _, _) =>
    case Post(_, _, _, _, _, _) =>
    case _ => DecisionEvolves(st.data, l);
  }

  lemma DecisionEvolves(d: Data, l: Label)
    requires l.Approve? || l.Reject?
    ensures AllEvolve(d.actions, (if l.Approve? then AfterApprove(d, l.user, l.id, l.now)
                                  else AfterReject(d, l.user, l.id, l.reason)).actions)
  {
  }

  lemma AdjustEvolves(t: Decimal, d: Data, user: Text, body: Payload, now: int)
    requires ActionsOk(d.actions, d.books.nextId)
    ensures AllEvolve(d.actions, AfterAdjust(d, t, user, body, now).actions)
  {
  }

  lemma PollerEvolves(st: State, l: Label, w: Poller)
    requires PollerOk(st.data, w) && ByPoller(l)
    ensures AllEvolve(st.data.actions, PollerStep(st, l, w).data.actions)
  {
  }

  lemma StepEvolves(t: Decimal, st: State, l: Label)
    requires Inv(t, st)
    ensures AllEvolve(st.data.actions, Step(t, st, l).data.actions)
  {
    if ByPoller(l) {
      if l.poller in st.pollers { PollerEvolves(st, l, st.pollers[l.poller]); }
    } else if !l.Poll? && !l.Stop? {
      HandlerEvolves(t, st, l);
    }
  }

  lemma EvolveTransitive(a: Actions, b: Actions, c: Actions)
    requires AllEvolve(a, b) && AllEvolve(b, c)
    ensures AllEvolve(a, c)
  {
    forall id | id in a ensures id in c && Evolves(a[id], c[id]) {
      assert id in b && Evolves(a[id], b[id]) && Evolves(b[id], c[id]);
    }
  }

  lemma RunSnoc(t: Decimal, labels: seq<Label>, l: Label)
    ensures Run(t, labels + [l]) == Step(t, Run(t, labels), l)
  {
    assert (labels + [l])[..|labels|] == labels;
  }

  lemma EvolveFurther(t: Decimal, before: Actions, labels: seq<Label>, l: Label)
    requires AllEvolve(before, Run(t, labels).data.actions)
    ensures AllEvolve(before, Run(t, labels + [l]).data.actions)
  {
    var st := Run(t, labels);
    RunKeepsInv(t, labels);
    RunSnoc(t, labels, l);
    StepEvolves(t, st, l);
    EvolveTransitive(before, st.data.actions, Step(t, st, l).data.actions);
  }

  /** Over any continuation of a run, an action keeps its request, moves only from pending to a
      decision and from approved to executed, and keeps a decision once made: rejected, expired
      and executed are final. */
  lemma {:induction false} DecisionsStand(t: Decimal, labels: seq<Label>, more: seq<Label>)
    ensures AllEvolve(Run(t, labels).data.actions, Run(t, labels + more).data.actions)
  {
    if more == [] {
      assert labels + more == labels;
    } else {
      var n := |more| - 1;
      DecisionsStand(t, labels, more[..n]);
      EvolveFurther(t, Run(t, labels).data.actions, labels + more[..n], more[n]);
      assert labels + more == labels + more[..n] + [more[n]];
    }
  }

  predicate Undecided(a: Action) {
    a.status == PENDING && a.approvedBy == None && a.rejectedBy == None
  }

  predicate NewUndecided(before: Actions, after: Actions) {
    forall id | id in after && id !in before :: Undecided(after[id])
  }

  lemma AdjustStarts(t: Decimal, d: Data, user: Text, body: Payload, now: int)
    ensures NewUndecided(d.actions, AfterAdjust(d, t, user, body, now).actions)
  {
  }

  lemma DecisionStarts(d: Data, user: Text, id: nat, now: int, reason: Text)
    ensures NewUndecided(d.actions, AfterApprove(d, user, id, now).actions)
    ensures NewUndecided(d.actions, AfterReject(d, user, id, reason).actions)
  {
  }

  lemma PollerStarts(st: State, l: Label, w: Poller)
    requires ByPoller(l)
    ensures NewUndecided(st.data.actions, PollerStep(st, l, w).data.actions)
  {
  }

  lemma StepStarts(t: Decimal, st: State, l: Label)
    ensures NewUndecided(st.data.actions, Step(t, st, l).data.actions)
  {
    match l
    case Adjust(user, body, now) => AdjustStarts(t, st.data, user, body, now);
    case Create(_, _, _, _) =>
    case Approve(user, id, now) => DecisionStarts(st.data, user, id, now, []);
    case Reject(user, id, reason) => DecisionStarts(st.data, user, id, 0, reason);
    case Expire(_, _) =>
    case Post(_, _, _, _, _, _) =>
    case Poll(_, _) =>
    case Stop(_) =>
    case _ => if l.poller in st.pollers { PollerStarts(st, l, st.pollers[l.poller]); }
  }

  /** Every action starts pending, undecided. */
  lemma StartsPending(t: Decimal, labels: seq<Label>, l: Label, id: nat)
    requires id in Step(t, Run(t, labels), l).data.actions && id !in Run(t, labels).data.actions
    ensures Undecided(Step(t, Run(t, labels), l).data.actions[id])
  {
    StepStarts(t, Run(t, labels), l);
  }

  // Expiry.

  /** Which actions a step leaves expired. */
  predicate ExpiresAt(before: Actions, after: Actions, id: nat, stale: bool)
    requires id in before
  {
    id in after && (after[id].status == EXPIRED <==> before[id].status == EXPIRED || stale)
  }

  lemma HandlerExpires(t: Decimal, st: State, l: Label, id: nat)
    requires ActionsOk(st.data.actions, st.data.books.nextId) && id in st.data.actions
    requires l.Adjust? || l.Create? || l.Approve? || l.Reject? || l.Expire? || l.Post?
    ensures ExpiresAt(st.data.actions, Step(t, st, l).data.actions, id,
                      l.Expire? && Stale(st.data.actions[id], l.now, l.hours))
  {
    match l
    case Adjust(user, body, now) => AdjustExpires(t, st.data, user, body, now, id);
    case Expire(_, _) =>
    case Create(_, _, _, _) =>
    case Post(_, _, _, _, _, _) =>
    case _ => DecisionExpires(st.data, l, id);
  }

  lemma AdjustExpires(t: Decimal, d: Data, user: Text, body: Payload, now: int, id: nat)
    requires ActionsOk(d.actions, d.books.nextId) && id in d.actions
    ensures ExpiresAt(d.actions, AfterAdjust(d, t, user, body, now).actions, id, false)
  {
  }

  lemma DecisionExpires(d: Data, l: Label, id: nat)
    requires (l.Approve? || l.Reject?) && id in d.actions
    ensures ExpiresAt(d.actions, (if l.Approve? then AfterApprove(d, l.user, l.id, l.now)
                                  else AfterReject(d, l.user, l.id, l.reason)).actions, id, false)
  {
  }

  lemma PollerExpires(st: State, l: Label, w: Poller, id: nat)
    requires PollerOk(st.data, w) && ByPoller(l) && id in st.data.actions
    ensures ExpiresAt(st.data.actions, PollerStep(st, l, w).data.actions, id, false)
  {
  }

  lemma StepExpires(t: Decimal, st: State, l: Label, id: nat)
    requires Inv(t, st) && id in st.data.actions
    ensures ExpiresAt(st.data.actions, Step(t, st, l).data.actions, id,
                      l.Expire? && Stale(st.data.actions[id], l.now, l.hours))
  {
    if ByPoller(l) {
      if l.poller in st.pollers { PollerExpires(st, l, st.pollers[l.poller], id); }
    } else if !l.Poll? && !l.Stop? {
      HandlerExpires(t, st, l, id);
    }
  }

  /** In every run a step turns an action expired if and only if it is the expiry job and the action
      was pending and older than the retention; so an approved action is never taken back. */
  lemma OnlyStaleExpire(t: Decimal, labels: seq<Label>, l: Label, id: nat)
    requires id in Run(t, labels).data.actions && Run(t, labels).data.actions[id].status != EXPIRED
    ensures var a := Run(t, labels).data.actions[id];
            Run(t, labels + [l]).data.actions[id].status == EXPIRED
            <==> l.Expire? && a.status == PENDING && a.requestedAt < l.now - l.hours * HOUR
  {
    RunKeepsInv(t, labels);
    RunSnoc(t, labels, l);
    StepExpires(t, Run(t, labels), l, id);
  }

  /** Every step of a poller but a commit leaves the actions and the ledger as they were, also
      when a dispatch throws or the process dies in the middle. */
  lemma OnlyCommitsChange(t: Decimal, st: State, l: Label)
    requires (ByPoller(l) && !l.Commit?) || l.Stop? || l.Poll?
    ensures var next := Step(t, st, l).data;
            && next.actions == st.data.actions
            && next.books.wallets == st.data.books.wallets
            && next.books.entries == st.data.books.entries
            && (next.audits == st.data.audits
                || exists id :: next.audits == st.data.audits + [ExecutionFailed(id)])
  {
  }

  /** The dispatch of a claimed action throws: by its own outcome, or for any other reason. */
  predicate DispatchFails(st: State, l: Label) {
    || (l.Dispatch? && l.poller in st.pollers && st.pollers[l.poller].Claimed?
        && DispatchOutcome(st.data.books, st.pollers[l.poller].row.action).TypeError?)
    || (l.Throw? && l.poller in st.pollers
        && (st.pollers[l.poller].Claimed? || st.pollers[l.poller].Written?))
  }

  lemma ThrowLeavesApproved(t: Decimal, st: State, l: Label)
    requires Inv(t, st) && DispatchFails(st, l)
    ensures var w := st.pollers[l.poller]; var next := Step(t, st, l);
            && IsApproved(next.data.actions, w.row.actionId)
            && next.pollers[l.poller] == Failing(w.row, w.queue)
            && next.data == st.data
  {
    assert PollerOk(st.data, st.pollers[l.poller]);
  }

  /** After a dispatch that throws the action is still approved, so that it will be tried again. */
  lemma FailureLeavesApproved(t: Decimal, labels: seq<Label>, l: Label)
    requires DispatchFails(Run(t, labels), l)
    ensures var st := Run(t, labels); var next := Step(t, st, l); var w := st.pollers[l.poller];
            && IsApproved(next.data.actions, w.row.actionId)
            && next.pollers[l.poller] == Failing(w.row, w.queue)
            && next.data == st.data
  {
    RunKeepsInv(t, labels);
    ThrowLeavesApproved(t, Run(t, labels), l);
  }
}
