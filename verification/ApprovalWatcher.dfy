/** The watcher's code: one poll that executes the rows it read, one short transaction each. The
    methods are the code as one process runs it undisturbed; `ExecuteOneIsSteps` ties them to the
    steps of the protocol, where everything is interleaved. */
module ApprovalWatcher {
  import opened Canonical
  import opened ColumnUnits
  import opened Decimals
  import opened Ledger
  import opened PendingActions
  import opened Approvals
  import M = MoneyText

  predicate Dispatchable(a: Action) {
    a.kind != WALLET_ADJUST || PayloadUnits(a.payload).Ok?
  }

  /** What one row's transaction, or its failure audit, leaves behind. */
  function AfterExecute(d: Data, row: Polled): Data {
    if !IsApproved(d.actions, row.actionId) then d
    else if !Dispatchable(row.action) then d.(audits := d.audits + [ExecutionFailed(row.actionId)])
    else
      var after := DispatchBooks(d.books, row.action);
      AfterCommit(d.(books := d.books.(nextId := after.nextId)), row.actionId,
                  after.wallets[|d.books.wallets|..], after.entries[|d.books.entries|..],
                  DispatchOutcome(d.books, row.action).value)
  }

  function AfterPoll(d: Data, rows: seq<Polled>): Data {
    if rows == [] then d
    else AfterExecute(AfterPoll(d, rows[..|rows| - 1]), rows[|rows| - 1])
  }

  predicate Executes(d: Data, row: Polled) {
    IsApproved(d.actions, row.actionId) && Dispatchable(row.action)
  }

  function Processed(d: Data, rows: seq<Polled>): nat {
    if rows == [] then 0
    else
      var n := |rows| - 1;
      Processed(d, rows[..n]) + if Executes(AfterPoll(d, rows[..n]), rows[n]) then 1 else 0
  }

  class Watcher {
    const db: Database

    constructor (db: Database)
      ensures this.db == db
    {
      this.db := db;
    }

    method Dispatch(a: Action) returns (r: Result<DispatchResult>)
      modifies db.ledger
      ensures r == DispatchOutcome(old(db.ledger.Value()), a)
      ensures r.Ok? ==> db.ledger.Value() == DispatchBooks(old(db.ledger.Value()), a)
    {
      if a.kind != WALLET_ADJUST {
        return Ok(NotImplemented);
      }
      var result := ExecuteWalletAdjust(a.payload, db.ledger);
      if result.TypeError? {
        return TypeError;
      }
      return Ok(DispatchResult.Adjustment(result.value));
    }

    method ExecuteOne(row: Polled) returns (ok: bool)
      modifies db, db.ledger, db.pending
      ensures db.Value() == AfterExecute(old(db.Value()), row)
      ensures ok == Executes(old(db.Value()), row)
    {
      var saved := db.Value();
      if !(row.actionId in db.pending.rows && db.pending.rows[row.actionId].status == APPROVED) {
        return false;
      }
      db.pending.rows := db.pending.rows[row.actionId := db.pending.rows[row.actionId].(status := EXECUTED)];
      var result := Dispatch(row.action);
      if result.TypeError? {
        db.Rollback(saved);
        db.WriteAudit(ExecutionFailed(row.actionId));
        return false;
      }
      db.WriteAudit(Execution(row.actionId, result.value));
      DispatchGrows(saved.books, row.action);
      return true;
    }

    method PollOnce(rows: seq<Polled>) returns (processed: nat, failed: nat)
      requires IsPoll(db.pending.rows, rows)
      modifies db, db.ledger, db.pending
      ensures db.Value() == AfterPoll(old(db.Value()), rows)
      ensures processed == Processed(old(db.Value()), rows) && processed + failed == |rows|
    {
      processed, failed := 0, 0;
      for i := 0 to |rows|
        invariant db.Value() == AfterPoll(old(db.Value()), rows[..i])
        invariant processed == Processed(old(db.Value()), rows[..i]) && processed + failed == i
      {
        assert rows[..i + 1][..i] == rows[..i];
        var ok := ExecuteOne(rows[i]);
        if ok {
          processed := processed + 1;
        } else {
          failed := failed + 1;
        }
      }
      assert rows[..|rows|] == rows;
    }
  }

  // ----- What executing a row is to do -----

  /** The polled action is a wallet adjustment of an amount that cannot be posted. */
  predicate Unpayable(a: Action) {
    a.kind == WALLET_ADJUST && !Payable(a.payload.amount)
  }

  /** Executed: marked so and audited; an adjustment with its pair of legs, any other type without a
      trace in the ledger. */
  ghost predicate ExecutedRow(before: Data, after: Data, row: Polled)
    requires row.actionId in before.actions && !Unpayable(row.action)
  {
    && after.actions == before.actions[row.actionId := before.actions[row.actionId].(status := EXECUTED)]
    && if row.action.kind == WALLET_ADJUST then
         var p := row.action.payload; var d := M.Parse(p.amount).value;
         exists a: Ledger.Adjustment ::
           PairFor(before.books, after.books, p, Kept(d.mag, d.scale), a)
           && after.audits == before.audits + [Execution(row.actionId, DispatchResult.Adjustment(a))]
       else after.books == before.books && after.audits == before.audits + [Execution(row.actionId, NotImplemented)]
  }

  lemma AdjustmentExecuted(d: Data, row: Polled)
    requires IsApproved(d.actions, row.actionId)
    requires row.action.kind == WALLET_ADJUST && Payable(row.action.payload.amount)
    ensures ExecutedRow(d, AfterExecute(d, row), row)
  {
    var p := row.action.payload;
    PayloadMeans(p);
    AdjustedPair(d.books, p, PayloadUnits(p).value);
    DispatchGrows(d.books, row.action);
    assert AfterExecute(d, row).books == Adjusted(d.books, p, PayloadUnits(p).value);
  }

  lemma OtherExecuted(d: Data, row: Polled)
    requires IsApproved(d.actions, row.actionId) && row.action.kind != WALLET_ADJUST
    ensures ExecutedRow(d, AfterExecute(d, row), row)
  {
    assert d.books.wallets + [] == d.books.wallets && d.books.entries + [] == d.books.entries;
  }

  /** One row of a poll: nothing if it is no longer approved; a failure audit and no other trace if its
      amount cannot be posted; else it is executed. */
  lemma RowExecuted(d: Data, row: Polled)
    ensures if row.actionId !in d.actions || d.actions[row.actionId].status != APPROVED then
              AfterExecute(d, row) == d && !Executes(d, row)
            else if Unpayable(row.action) then
              && AfterExecute(d, row) == Data(d.books, d.actions, d.audits + [ExecutionFailed(row.actionId)])
              && !Executes(d, row)
            else ExecutedRow(d, AfterExecute(d, row), row) && Executes(d, row)
  {
    PayloadMeans(row.action.payload);
    if IsApproved(d.actions, row.actionId) && !Unpayable(row.action) {
      if row.action.kind == WALLET_ADJUST { AdjustmentExecuted(d, row); } else { OtherExecuted(d, row); }
    }
  }

  lemma DispatchGrows(books: Books, a: Action)
    requires DispatchOutcome(books, a).Ok?
    ensures var after := DispatchBooks(books, a);
            && books.wallets + after.wallets[|books.wallets|..] == after.wallets
            && books.entries + after.entries[|books.entries|..] == after.entries
  {
  }

  lemma DispatchesAlone(t: Decimal, st: State, p: nat, row: Polled, rest: seq<Polled>)
    requires p in st.pollers && st.pollers[p] == Claimed(row, rest) && Dispatchable(row.action)
    requires IsApproved(st.data.actions, row.actionId)
    ensures Step(t, DispatchStep(st, p, row, rest), Commit(p, true)).data == AfterExecute(st.data, row)
  {
    var written := DispatchStep(st, p, row, rest);
    assert written.pollers[p].Written? && written.data.actions == st.data.actions;
    assert Step(t, written, Commit(p, true)) == PollerStep(written, Commit(p, true), written.pollers[p]);
  }

  lemma ThrowsAlone(t: Decimal, st: State, p: nat, row: Polled, rest: seq<Polled>)
    requires p in st.pollers && st.pollers[p] == Claimed(row, rest) && !Dispatchable(row.action)
    requires IsApproved(st.data.actions, row.actionId)
    ensures Step(t, DispatchStep(st, p, row, rest), WriteFailure(p)).data == AfterExecute(st.data, row)
  {
  }

  lemma ClaimsAlone(t: Decimal, st: State, p: nat)
    requires p in st.pollers && st.pollers[p].Working? && st.pollers[p].queue != []
    requires !Locked(st.pollers, st.pollers[p].queue[0].actionId)
    ensures var row, rest := st.pollers[p].queue[0], st.pollers[p].queue[1..];
            Step(t, st, Claim(p)) == st.(pollers := st.pollers[p :=
              if IsApproved(st.data.actions, row.actionId) then Claimed(row, rest) else Working(rest)])
  {
  }

  /** The claim, the dispatch and the commit of the protocol, taken one after the other while no
      other transaction holds the row, do what `executeOne` does; and so do the claim, the throw
      and the failure audit. */
  lemma ExecuteOneIsSteps(t: Decimal, st: State, p: nat)
    requires p in st.pollers && st.pollers[p].Working? && st.pollers[p].queue != []
    requires !Locked(st.pollers, st.pollers[p].queue[0].actionId)
    ensures var row := st.pollers[p].queue[0];
            var last := if Dispatchable(row.action) then Commit(p, true) else WriteFailure(p);
            Step(t, Step(t, Step(t, st, Claim(p)), Dispatch(p)), last).data == AfterExecute(st.data, row)
  {
    var row, rest := st.pollers[p].queue[0], st.pollers[p].queue[1..];
    var claimed := Step(t, st, Claim(p));
    ClaimsAlone(t, st, p);
    if IsApproved(st.data.actions, row.actionId) {
      assert Step(t, claimed, Dispatch(p)) == DispatchStep(claimed, p, row, rest);
      if Dispatchable(row.action) {
        DispatchesAlone(t, claimed, p, row, rest);
      } else {
        ThrowsAlone(t, claimed, p, row, rest);
      }
    } else {
      assert Step(t, claimed, Dispatch(p)) == claimed;
    }
  }

  lemma ExecuteStatus(d: Data, row: Polled, id: nat)
    requires row.actionId in d.actions && id in d.actions
    ensures id in AfterExecute(d, row).actions
    ensures AfterExecute(d, row).actions[id].status
            == if id == row.actionId && Executes(d, row) then EXECUTED else d.actions[id].status
  {
  }

  /** The positions of the rows that can be executed. */
  function DispatchableAt(rows: seq<Polled>, n: nat): set<nat>
    requires n <= |rows|
  {
    set i: nat | i < n && Dispatchable(rows[i].action)
  }

  /** A poll that runs alone executes every row whose payload can be executed, and leaves the rest
      approved. */
  lemma {:induction false} PollOutcome(d: Data, actions: Actions, rows: seq<Polled>, n: nat, id: nat)
    requires d.actions == actions && IsPoll(actions, rows) && n <= |rows| && id in actions
    ensures var after := AfterPoll(d, rows[..n]);
            && id in after.actions
            && after.actions[id].status ==
               (if exists i | 0 <= i < n :: rows[i].actionId == id && Dispatchable(rows[i].action)
                then EXECUTED else actions[id].status)
    ensures Processed(d, rows[..n]) == |DispatchableAt(rows, n)|
  {
    if n == 0 {
      assert rows[..0] == [];
      assert DispatchableAt(rows, 0) == {};
    } else {
      var m := n - 1;
      var before := AfterPoll(d, rows[..m]);
      assert rows[..n][..m] == rows[..m] && rows[m] in rows;
      PollOutcome(d, actions, rows, m, id);
      PollOutcome(d, actions, rows, m, rows[m].actionId);
      ExecuteStatus(before, rows[m], id);
      DispatchableAdded(rows, m);
    }
  }

  lemma DispatchableAdded(rows: seq<Polled>, m: nat)
    requires m < |rows|
    ensures |DispatchableAt(rows, m + 1)|
            == |DispatchableAt(rows, m)| + if Dispatchable(rows[m].action) then 1 else 0
  {
    var s := DispatchableAt(rows, m);
    assert DispatchableAt(rows, m + 1) == if Dispatchable(rows[m].action) then s + {m} else s;
  }

  /** The audit row that a polled row leaves. */
  predicate AuditOf(audit: AuditRow, row: Polled) {
    if Unpayable(row.action) then audit == ExecutionFailed(row.actionId)
    else audit.Execution? && audit.actionId == row.actionId
  }

  lemma RowAudited(d: Data, row: Polled)
    requires IsApproved(d.actions, row.actionId)
    ensures var after := AfterExecute(d, row).audits; var k := |d.audits|;
            |after| == k + 1 && after[..k] == d.audits && AuditOf(after[k], row)
  {
    RowExecuted(d, row);
  }

  /** One audit row for each of the first `n` rows, in their order. */
  predicate AuditedInTurn(before: seq<AuditRow>, after: seq<AuditRow>, rows: seq<Polled>, n: nat)
    requires n <= |rows|
  {
    |after| == |before| + n && after[..|before|] == before
    && forall i | 0 <= i < n :: AuditOf(after[|before| + i], rows[i])
  }

  lemma OneMoreAudit(before: seq<AuditRow>, audits: seq<AuditRow>, after: seq<AuditRow>, rows: seq<Polled>, n: nat)
    requires n < |rows| && AuditedInTurn(before, audits, rows, n)
    requires |after| == |audits| + 1 && after[..|audits|] == audits && AuditOf(after[|audits|], rows[n])
    ensures AuditedInTurn(before, after, rows, n + 1)
  {
    assert after[..|before|] == audits[..|before|];
    forall i | 0 <= i < n + 1 ensures AuditOf(after[|before| + i], rows[i]) {
      if i < n { assert after[|before| + i] == audits[|before| + i]; }
    }
  }

  lemma AfterPollSnoc(d: Data, rows: seq<Polled>, n: nat)
    requires n < |rows|
    ensures AfterPoll(d, rows[..n + 1]) == AfterExecute(AfterPoll(d, rows[..n]), rows[n])
  {
    assert rows[..n + 1][..n] == rows[..n];
  }

  lemma StillApproved(d: Data, rows: seq<Polled>, n: nat)
    requires IsPoll(d.actions, rows) && n < |rows|
    ensures IsApproved(AfterPoll(d, rows[..n]).actions, rows[n].actionId)
  {
    assert rows[n] in rows;
    PollOutcome(d, d.actions, rows, n, rows[n].actionId);
  }

  /** The rows are executed in turn: one audit row for each, in the order of the poll. */
  lemma {:induction false} PolledInTurn(d: Data, rows: seq<Polled>, n: nat)
    requires IsPoll(d.actions, rows) && n <= |rows|
    ensures AuditedInTurn(d.audits, AfterPoll(d, rows[..n]).audits, rows, n)
  {
    if n == 0 {
      assert rows[..0] == [];
    } else {
      PolledInTurn(d, rows, n - 1);
      AfterPollSnoc(d, rows, n - 1);
      StillApproved(d, rows, n - 1);
      RowAudited(AfterPoll(d, rows[..n - 1]), rows[n - 1]);
      OneMoreAudit(d.audits, AfterPoll(d, rows[..n - 1]).audits, AfterPoll(d, rows[..n]).audits, rows, n - 1);
    }
  }
}
