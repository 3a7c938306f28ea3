/** Which approved actions a poll reaches: the query takes the 25 that were approved first, and an
    action that cannot be dispatched stays among them. */
module PollQueue {
  import opened PendingActions
  import opened Approvals
  import opened ApprovalWatcher
  import opened FourEyes
  import Decimals

  /** The other approved actions that were not approved later. */
  function NotLater(actions: Actions, id: nat): set<nat>
    requires id in actions
  {
    set x | x in actions && x != id && IsApproved(actions, x) && actions[x].approvedAt <= actions[id].approvedAt
  }

  // ----- The rows of a poll as a set -----

  function Ids(rows: seq<Polled>): set<nat> {
    set r | r in rows :: r.actionId
  }

  predicate DistinctRows(rows: seq<Polled>) {
    forall i, j | 0 <= i < j < |rows| :: rows[i].actionId != rows[j].actionId
  }

  lemma {:induction false} IdsCount(rows: seq<Polled>)
    requires DistinctRows(rows)
    ensures |Ids(rows)| == |rows|
  {
    if rows == [] {
      assert Ids(rows) == {};
    } else {
      var n := |rows| - 1;
      IdsCount(rows[..n]);
      assert rows == rows[..n] + [rows[n]];
      assert Ids(rows) == Ids(rows[..n]) + {rows[n].actionId};
      assert rows[n].actionId !in Ids(rows[..n]);
    }
  }

  lemma {:induction false} SubsetCount(a: set<nat>, b: set<nat>)
    requires a <= b
    ensures |a| <= |b|
  {
    if a != {} {
      var x :| x in a;
      SubsetCount(a - {x}, b - {x});
    }
  }

  lemma RowIs(actions: Actions, rows: seq<Polled>, id: nat)
    requires IsPoll(actions, rows) && id in actions
    ensures id in Ids(rows) <==> Polled(id, actions[id]) in rows
  {
    if id in Ids(rows) {
      var r :| r in rows && r.actionId == id;
      assert r == Polled(id, actions[id]);
    }
  }

  // ----- An action that is in every poll -----

  /** A poll without the action is full of others that were not approved later. */
  lemma FullWithout(actions: Actions, rows: seq<Polled>, id: nat)
    requires IsPoll(actions, rows) && IsApproved(actions, id) && Polled(id, actions[id]) !in rows
    ensures |NotLater(actions, id)| >= POLL_LIMIT
  {
    RowIs(actions, rows, id);
    IdsCount(rows);
    forall x | x in Ids(rows) ensures x in NotLater(actions, id) {
      var r :| r in rows && r.actionId == x;
      assert r in rows;
    }
    SubsetCount(Ids(rows), NotLater(actions, id));
  }

  // ----- A poll without the action -----

  ghost predicate AllApproved(actions: Actions, some: set<nat>) {
    forall x | x in some :: IsApproved(actions, x)
  }

  lemma {:induction false} FirstApproved(actions: Actions, some: set<nat>) returns (m: nat)
    requires some != {} && AllApproved(actions, some)
    ensures m in some && forall x | x in some :: actions[m].approvedAt <= actions[x].approvedAt
    decreases |some|
  {
    var y :| y in some;
    if some == {y} {
      m := y;
    } else {
      var rest := some - {y};
      assert rest != {};
      var n := FirstApproved(actions, rest);
      m := if actions[y].approvedAt <= actions[n].approvedAt then y else n;
      assert forall x | x in some :: x == y || x in rest;
    }
  }

  /** The first `n` of some actions, in order: those left out were not approved before any of them. */
  predicate Firsts(actions: Actions, some: set<nat>, n: nat, rows: seq<Polled>)
    requires forall x | x in some :: x in actions
  {
    && |rows| <= n && DistinctRows(rows)
    && (forall r | r in rows :: r.actionId in some && r.action == actions[r.actionId])
    && (forall i, j | 0 <= i < j < |rows| :: rows[i].action.approvedAt <= rows[j].action.approvedAt)
    && (forall x | x in some && x !in Ids(rows) ::
          |rows| == n && forall r | r in rows :: r.action.approvedAt <= actions[x].approvedAt)
  }

  lemma {:induction false} TakeFirsts(actions: Actions, some: set<nat>, n: nat) returns (rows: seq<Polled>)
    requires AllApproved(actions, some)
    ensures Firsts(actions, some, n, rows)
  {
    if n == 0 || some == {} {
      rows := [];
    } else {
      var m := FirstApproved(actions, some);
      var rest := TakeFirsts(actions, some - {m}, n - 1);
      rows := [Polled(m, actions[m])] + rest;
      FirstsCons(actions, some, n, m, rest);
    }
  }

  lemma FirstsCons(actions: Actions, some: set<nat>, n: nat, m: nat, rest: seq<Polled>)
    requires AllApproved(actions, some) && m in some && n > 0
    requires forall x | x in some :: actions[m].approvedAt <= actions[x].approvedAt
    requires Firsts(actions, some - {m}, n - 1, rest)
    ensures Firsts(actions, some, n, [Polled(m, actions[m])] + rest)
  {
    var first := Polled(m, actions[m]);
    var rows := [first] + rest;
    assert forall r | r in rest :: r in rows;
    forall x | x in some && x !in Ids(rows)
      ensures |rows| == n && forall r | r in rows :: r.action.approvedAt <= actions[x].approvedAt
    {
      assert first in rows && x != m;
      assert x !in Ids(rest);
    }
  }

  /** Others that were not approved later fill a poll. */
  lemma PollWithout(actions: Actions, id: nat) returns (rows: seq<Polled>)
    requires IsApproved(actions, id) && |NotLater(actions, id)| >= POLL_LIMIT
    ensures IsPoll(actions, rows) && Polled(id, actions[id]) !in rows
  {
    var others := set x | x in actions && x != id && IsApproved(actions, x);
    rows := TakeFirsts(actions, others, POLL_LIMIT);
    IdsCount(rows);
    FullOfOthers(actions, id, others, rows);
    forall x | x in actions && IsApproved(actions, x) && Polled(x, actions[x]) !in rows
      ensures |rows| == POLL_LIMIT && forall r | r in rows :: r.action.approvedAt <= actions[x].approvedAt
    {
      if x != id { assert x in others; }
    }
  }

  lemma FullOfOthers(actions: Actions, id: nat, others: set<nat>, rows: seq<Polled>)
    requires IsApproved(actions, id) && |NotLater(actions, id)| >= POLL_LIMIT
    requires NotLater(actions, id) <= others && (forall x | x in others :: x in actions)
    requires Firsts(actions, others, POLL_LIMIT, rows)
    ensures |rows| == POLL_LIMIT && forall r | r in rows :: r.action.approvedAt <= actions[id].approvedAt
  {
    IdsCount(rows);
    if NotLater(actions, id) <= Ids(rows) {
      SubsetCount(NotLater(actions, id), Ids(rows));
      forall r | r in rows ensures r.action.approvedAt <= actions[id].approvedAt {
        if r.actionId !in NotLater(actions, id) {
          SubsetCount(NotLater(actions, id), Ids(rows) - {r.actionId});
        }
      }
    }
  }

  /** Exactly when an approved action is in the next poll, however ties are broken. */
  lemma InEveryPoll(actions: Actions, id: nat)
    requires IsApproved(actions, id)
    ensures (forall rows: seq<Polled> | IsPoll(actions, rows) :: Polled(id, actions[id]) in rows)
            <==> |NotLater(actions, id)| < 25
  {
    if |NotLater(actions, id)| < POLL_LIMIT {
      forall rows: seq<Polled> | IsPoll(actions, rows) ensures Polled(id, actions[id]) in rows {
        if Polled(id, actions[id]) !in rows { FullWithout(actions, rows, id); }
      }
    } else {
      var rows := PollWithout(actions, id);
      assert IsPoll(actions, rows) && Polled(id, actions[id]) !in rows;
    }
  }

  predicate HasStatus(actions: Actions, id: nat, status: Status) {
    id in actions && actions[id].status == status
  }

  lemma PolledExecutes(d: Data, rows: seq<Polled>, id: nat)
    requires IsPoll(d.actions, rows) && IsApproved(d.actions, id) && Dispatchable(d.actions[id])
    ensures HasStatus(AfterPoll(d, rows).actions, id, EXECUTED) <==> Polled(id, d.actions[id]) in rows
  {
    PollOutcome(d, d.actions, rows, |rows|, id);
    assert rows[..|rows|] == rows;
    if Polled(id, d.actions[id]) in rows {
      var i :| 0 <= i < |rows| && rows[i] == Polled(id, d.actions[id]);
      assert rows[i].actionId == id && Dispatchable(rows[i].action);
    }
  }

  /** So a poll that runs alone is sure to execute an approved action that can be dispatched if and
      only if fewer than 25 others were approved no later. */
  lemma NextPollExecutes(d: Data, id: nat)
    requires IsApproved(d.actions, id) && Dispatchable(d.actions[id])
    ensures (forall rows: seq<Polled> | IsPoll(d.actions, rows) :: HasStatus(AfterPoll(d, rows).actions, id, EXECUTED))
            <==> |NotLater(d.actions, id)| < 25
  {
    InEveryPoll(d.actions, id);
    forall rows: seq<Polled> | IsPoll(d.actions, rows)
      ensures HasStatus(AfterPoll(d, rows).actions, id, EXECUTED) <==> Polled(id, d.actions[id]) in rows
    {
      PolledExecutes(d, rows, id);
    }
  }

  // ----- Starvation -----

  /** Approved earlier than the action, and impossible to dispatch. */
  predicate Blocks(actions: Actions, x: nat, id: nat)
    requires id in actions
  {
    IsApproved(actions, x) && !Dispatchable(actions[x]) && actions[x].approvedAt < actions[id].approvedAt
  }

  predicate InQueue(w: Poller, id: nat) {
    (exists r | r in w.queue :: r.actionId == id) || (!w.Working? && w.row.actionId == id)
  }

  predicate Starved(st: State, id: nat, blockers: set<nat>) {
    && IsApproved(st.data.actions, id)
    && |blockers| >= 25 && (forall x | x in blockers :: Blocks(st.data.actions, x, id))
    && forall p | p in st.pollers :: !InQueue(st.pollers[p], id)
  }

  /** The action that a step would execute. */
  predicate CommitsRow(st: State, l: Label, x: nat) {
    l.Commit? && l.poller in st.pollers && st.pollers[l.poller].Written? && st.pollers[l.poller].row.actionId == x
  }

  lemma AdjustKeeps(t: Decimals.Decimal, d: Data, l: Label, x: nat)
    requires l.Adjust? && ActionsOk(d.actions, d.books.nextId) && IsApproved(d.actions, x)
    ensures x in AfterAdjust(d, t, l.user, l.body, l.now).actions
    ensures AfterAdjust(d, t, l.user, l.body, l.now).actions[x] == d.actions[x]
  {
  }

  lemma DecisionKeeps(d: Data, l: Label, x: nat)
    requires (l.Approve? || l.Reject?) && IsApproved(d.actions, x)
    ensures var after := if l.Approve? then AfterApprove(d, l.user, l.id, l.now) else AfterReject(d, l.user, l.id, l.reason);
            x in after.actions && after.actions[x] == d.actions[x]
  {
  }

  lemma PollerKeeps(st: State, l: Label, x: nat)
    requires ByPoller(l) && l.poller in st.pollers && IsApproved(st.data.actions, x) && !CommitsRow(st, l, x)
    ensures var after := PollerStep(st, l, st.pollers[l.poller]).data.actions; x in after && after[x] == st.data.actions[x]
  {
  }

  /** An approved action changes in no step but its own commit. */
  lemma ApprovedStays(t: Decimals.Decimal, st: State, l: Label, x: nat)
    requires ActionsOk(st.data.actions, st.data.books.nextId)
    requires IsApproved(st.data.actions, x) && !CommitsRow(st, l, x)
    ensures var after := Step(t, st, l).data.actions; x in after && after[x] == st.data.actions[x]
  {
    match l
    case Adjust(_, _, _) => AdjustKeeps(t, st.data, l, x);
    case Approve(_, _, _) => DecisionKeeps(st.data, l, x);
    case Reject(_, _, _) => DecisionKeeps(st.data, l, x);
    case Create(_, _, _, _) =>
    case Expire(_, _) =>
    case Post(_, _, _, _, _, _) =>
    case Poll(_, _) =>
    case Stop(_) =>
    case _ => if l.poller in st.pollers { PollerKeeps(st, l, x); }
  }

  /** No commit executes an action that cannot be dispatched. */
  lemma BlockerStays(t: Decimals.Decimal, st: State, l: Label, x: nat)
    requires Inv(t, st) && IsApproved(st.data.actions, x) && !Dispatchable(st.data.actions[x])
    ensures !CommitsRow(st, l, x)
  {
    if l.Commit? && l.poller in st.pollers && st.pollers[l.poller].Written? {
      WrittenDispatchable(st.data, st.pollers[l.poller]);
    }
  }

  lemma WrittenDispatchable(d: Data, w: Poller)
    requires PollerOk(d, w) && w.Written?
    ensures w.row.actionId in d.actions && Dispatchable(d.actions[w.row.actionId])
  {
  }

  lemma {:induction false} SubsetEqual(a: set<nat>, b: set<nat>)
    requires a <= b && |b| <= |a|
    ensures a == b
  {
    if a != {} {
      var x :| x in a;
      SubsetEqual(a - {x}, b - {x});
    }
  }

  lemma BlockerOutside(actions: Actions, rows: seq<Polled>, id: nat, x: nat)
    requires IsPoll(actions, rows) && IsApproved(actions, id) && Blocks(actions, x, id) && x !in Ids(rows)
    ensures id !in Ids(rows)
  {
    RowIs(actions, rows, x);
    RowIs(actions, rows, id);
  }

  /** A poll does not return the action: it would have to leave out a blocker. */
  lemma BlockedPoll(actions: Actions, rows: seq<Polled>, id: nat, blockers: set<nat>)
    requires IsPoll(actions, rows) && IsApproved(actions, id)
    requires |blockers| >= POLL_LIMIT && forall x | x in blockers :: Blocks(actions, x, id)
    ensures id !in Ids(rows)
  {
    if blockers <= Ids(rows) {
      IdsCount(rows);
      SubsetEqual(blockers, Ids(rows));
    } else {
      var x :| x in blockers && x !in Ids(rows);
      BlockerOutside(actions, rows, id, x);
    }
  }

  lemma QueueShrinks(st: State, l: Label, id: nat)
    requires ByPoller(l) && l.poller in st.pollers && !InQueue(st.pollers[l.poller], id)
    ensures var after := PollerStep(st, l, st.pollers[l.poller]).pollers;
            l.poller in after && !InQueue(after[l.poller], id)
            && forall p | p in after && p != l.poller :: p in st.pollers && after[p] == st.pollers[p]
  {
  }

  lemma StillUnpolled(t: Decimals.Decimal, st: State, l: Label, id: nat, blockers: set<nat>)
    requires Starved(st, id, blockers)
    ensures forall p | p in Step(t, st, l).pollers :: !InQueue(Step(t, st, l).pollers[p], id)
  {
    if ByPoller(l) {
      if l.poller in st.pollers { QueueShrinks(st, l, id); }
    } else if l.Poll? {
      if IsPoll(st.data.actions, l.rows) { BlockedPoll(st.data.actions, l.rows, id, blockers); }
    }
  }

  lemma StarvedStep(t: Decimals.Decimal, st: State, l: Label, id: nat, blockers: set<nat>)
    requires Inv(t, st) && Starved(st, id, blockers)
    ensures Starved(Step(t, st, l), id, blockers)
  {
    assert !CommitsRow(st, l, id);
    ApprovedStays(t, st, l, id);
    forall x | x in blockers ensures Blocks(Step(t, st, l).data.actions, x, id) {
      BlockerStays(t, st, l, x);
      ApprovedStays(t, st, l, x);
    }
    StillUnpolled(t, st, l, id, blockers);
  }

  lemma LastApart(labels: seq<Label>, more: seq<Label>)
    requires more != []
    ensures var n := |more| - 1; labels + more == labels + more[..n] + [more[n]]
  {
  }

  lemma StarvedFurther(t: Decimals.Decimal, labels: seq<Label>, l: Label, id: nat, blockers: set<nat>, next: State)
    requires Starved(Run(t, labels), id, blockers) && next == Run(t, labels + [l])
    ensures Starved(next, id, blockers)
  {
    RunKeepsInv(t, labels);
    RunSnoc(t, labels, l);
    StarvedStep(t, Run(t, labels), l, id, blockers);
  }

  /** An approved action that no poller has read yet is never executed, at no end of a continuation of
      a run, while 25 others that cannot be dispatched were approved before it: they stay approved,
      and every poll is full of them. */
  lemma {:induction false} NeverExecuted(t: Decimals.Decimal, labels: seq<Label>, more: seq<Label>,
                                         id: nat, blockers: set<nat>, end: State)
    requires Starved(Run(t, labels), id, blockers) && end == Run(t, labels + more)
    ensures Starved(end, id, blockers)
  {
    if more == [] {
      assert labels + more == labels;
    } else {
      var n := |more| - 1;
      var before := labels + more[..n];
      NeverExecuted(t, labels, more[..n], id, blockers, Run(t, before));
      LastApart(labels, more);
      StarvedFurther(t, before, more[n], id, blockers, end);
    }
  }
}
