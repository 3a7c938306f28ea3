/** Where the columns of an action come from, over every run: the label that asked for it, and the
    one label that approved it. The poll's order is the order of those approvals. */
module ApprovalTrace {
  import opened Texts
  import opened Decimals
  import opened Ledger
  import opened PendingActions
  import opened Approvals
  import opened FourEyes
  import opened PollQueue

  // ----- One step -----

  predicate WasApproved(a: Action) {
    a.status == APPROVED || a.status == EXECUTED
  }

  /** The label asks for the action: its kind, payload, requester and time. */
  predicate Asks(l: Label, a: Action) {
    match l
    case Adjust(user, body, now) =>
      a.kind == WALLET_ADJUST && a.payload == body && a.requestedBy == user && a.requestedAt == now
    case Create(kind, payload, user, now) =>
      a.kind == kind && a.payload == payload && a.requestedBy == user && a.requestedAt == now
    case _ => false
  }

  /** The label approves the action: its user and its time, and not the requester. */
  predicate Grants(l: Label, id: nat, a: Action) {
    l.Approve? && l.id == id && a.approvedBy == Some(l.user) && a.approvedAt == l.now && l.user != a.requestedBy
  }

  predicate SameRequest(a: Action, b: Action) {
    a.kind == b.kind && a.payload == b.payload && a.requestedBy == b.requestedBy && a.requestedAt == b.requestedAt
  }

  predicate SameApproval(a: Action, b: Action) {
    WasApproved(b) && a.approvedBy == b.approvedBy && a.approvedAt == b.approvedAt
  }

  /** A step asks for an action, approves it, or leaves both its request and its approval alone. */
  predicate Traced(before: Actions, after: Actions, l: Label, id: nat)
    requires id in after
  {
    if id !in before then Asks(l, after[id]) && !WasApproved(after[id])
    else
      && SameRequest(before[id], after[id])
      && (WasApproved(before[id]) ==> SameApproval(before[id], after[id]))
      && (!WasApproved(before[id]) && WasApproved(after[id]) ==>
            before[id].status == PENDING && after[id].status == APPROVED && Grants(l, id, after[id]))
  }

  lemma AdjustTraced(t: Decimal, d: Data, user: Text, body: Payload, now: int, id: nat)
    requires ActionsOk(d.actions, d.books.nextId) && id in AfterAdjust(d, t, user, body, now).actions
    ensures Traced(d.actions, AfterAdjust(d, t, user, body, now).actions, Adjust(user, body, now), id)
  {
  }

  lemma ApproveTraced(d: Data, l: Label, id: nat)
    requires l.Approve? && id in AfterApprove(d, l.user, l.id, l.now).actions
    ensures Traced(d.actions, AfterApprove(d, l.user, l.id, l.now).actions, l, id)
  {
  }

  lemma RejectTraced(d: Data, l: Label, id: nat)
    requires l.Reject? && id in AfterReject(d, l.user, l.id, l.reason).actions
    ensures Traced(d.actions, AfterReject(d, l.user, l.id, l.reason).actions, l, id)
  {
  }

  lemma PollerTraced(st: State, l: Label, w: Poller, id: nat)
    requires PollerOk(st.data, w) && ByPoller(l) && id in PollerStep(st, l, w).data.actions
    ensures Traced(st.data.actions, PollerStep(st, l, w).data.actions, l, id)
  {
  }

  lemma HandlerTraced(t: Decimal, st: State, l: Label, id: nat)
    requires Inv(t, st) && !ByPoller(l) && !l.Poll? && !l.Stop? && id in Step(t, st, l).data.actions
    ensures Traced(st.data.actions, Step(t, st, l).data.actions, l, id)
  {
    match l
    case Adjust(user, body, now) => AdjustTraced(t, st.data, user, body, now, id);
    case Approve(_, _, _) => ApproveTraced(st.data, l, id);
    case Reject(_, _, _) => RejectTraced(st.data, l, id);
    case Create(_, _, _, _) =>
    case Expire(_, _) =>
    case Post(_, _, _, _, _, _) =>
  }

  lemma StepTraced(t: Decimal, st: State, l: Label, id: nat)
    requires Inv(t, st) && id in Step(t, st, l).data.actions
    ensures Traced(st.data.actions, Step(t, st, l).data.actions, l, id)
  {
    if ByPoller(l) {
      if l.poller in st.pollers { PollerTraced(st, l, st.pollers[l.poller], id); }
    } else if !l.Poll? && !l.Stop? {
      HandlerTraced(t, st, l, id);
    }
  }

  // ----- Whole runs -----

  function ActionsAt(t: Decimal, labels: seq<Label>): Actions {
    Run(t, labels).data.actions
  }

  predicate ApprovedIn(actions: Actions, id: nat) {
    id in actions && WasApproved(actions[id])
  }

  lemma RunTraced(t: Decimal, labels: seq<Label>, id: nat)
    requires labels != [] && id in ActionsAt(t, labels)
    ensures var n := |labels| - 1; Traced(ActionsAt(t, labels[..n]), ActionsAt(t, labels), labels[n], id)
  {
    RunKeepsInv(t, labels[..|labels| - 1]);
    StepTraced(t, Run(t, labels[..|labels| - 1]), labels[|labels| - 1], id);
  }

  /** The position of the label with which the action was there. */
  function AskedAt(t: Decimal, labels: seq<Label>, id: nat): (k: nat)
    requires id in ActionsAt(t, labels)
    ensures k < |labels|
  {
    var n := |labels| - 1;
    if id in ActionsAt(t, labels[..n]) then AskedAt(t, labels[..n], id) else n
  }

  /** The position of the label with which it was approved. */
  function ApprovedAt(t: Decimal, labels: seq<Label>, id: nat): (i: nat)
    requires ApprovedIn(ActionsAt(t, labels), id)
    ensures i < |labels|
  {
    var n := |labels| - 1;
    if ApprovedIn(ActionsAt(t, labels[..n]), id) then ApprovedAt(t, labels[..n], id) else n
  }

  /** The label asks for an action that was not there. */
  predicate Begins(before: Actions, after: Actions, l: Label, id: nat, a: Action) {
    id !in before && id in after && Asks(l, a)
  }

  lemma StillBegins(before: Actions, after: Actions, l: Label, id: nat, a: Action, b: Action)
    requires Begins(before, after, l, id, a) && SameRequest(a, b)
    ensures Begins(before, after, l, id, b)
  {
  }

  lemma Prefixes(labels: seq<Label>, n: nat, i: nat)
    requires i < n <= |labels|
    ensures labels[..n][..i] == labels[..i] && labels[..n][..i + 1] == labels[..i + 1] && labels[..n][i] == labels[i]
  {
  }

  /** Over every run, an action carries the kind, the payload, the requester and the time of the label
      that asked for it. */
  lemma {:induction false} Requested(t: Decimal, labels: seq<Label>, id: nat, k: nat)
    requires id in ActionsAt(t, labels) && k == AskedAt(t, labels, id)
    ensures Begins(ActionsAt(t, labels[..k]), ActionsAt(t, labels[..k + 1]), labels[k], id, ActionsAt(t, labels)[id])
  {
    var n := |labels| - 1;
    var prev := ActionsAt(t, labels[..n]);
    RunTraced(t, labels, id);
    if id in prev {
      Requested(t, labels[..n], id, k);
      Prefixes(labels, n, k);
      StillBegins(ActionsAt(t, labels[..k]), ActionsAt(t, labels[..k + 1]), labels[k], id, prev[id],
                  ActionsAt(t, labels)[id]);
    } else {
      assert labels[..n + 1] == labels;
    }
  }

  /** The label approves an action that was pending. */
  predicate Decides(before: Actions, after: Actions, l: Label, id: nat, a: Action) {
    id in before && before[id].status == PENDING && ApprovedIn(after, id) && Grants(l, id, a)
  }

  lemma StillDecides(before: Actions, after: Actions, l: Label, id: nat, a: Action, b: Action)
    requires Decides(before, after, l, id, a) && SameRequest(a, b) && SameApproval(a, b)
    ensures Decides(before, after, l, id, b)
  {
  }

  /** And if it was approved, it carries the user and the time of an Approve label that found it
      pending. */
  lemma {:induction false} Approved(t: Decimal, labels: seq<Label>, id: nat, i: nat)
    requires ApprovedIn(ActionsAt(t, labels), id) && i == ApprovedAt(t, labels, id)
    ensures Decides(ActionsAt(t, labels[..i]), ActionsAt(t, labels[..i + 1]), labels[i], id, ActionsAt(t, labels)[id])
  {
    var n := |labels| - 1;
    var prev := ActionsAt(t, labels[..n]);
    RunTraced(t, labels, id);
    if ApprovedIn(prev, id) {
      Approved(t, labels[..n], id, i);
      Prefixes(labels, n, i);
      StillDecides(ActionsAt(t, labels[..i]), ActionsAt(t, labels[..i + 1]), labels[i], id, prev[id],
                   ActionsAt(t, labels)[id]);
    } else {
      assert labels[..n + 1] == labels;
    }
  }

  lemma StillApproved(before: Actions, after: Actions, id: nat)
    requires AllEvolve(before, after) && ApprovedIn(before, id)
    ensures ApprovedIn(after, id)
  {
  }

  lemma ApprovedFrom(t: Decimal, labels: seq<Label>, a: nat, b: nat, id: nat)
    requires a <= b <= |labels|
    ensures ApprovedIn(ActionsAt(t, labels[..a]), id) ==> ApprovedIn(ActionsAt(t, labels[..b]), id)
  {
    DecisionsStand(t, labels[..a], labels[a..b]);
    assert labels[..a] + labels[a..b] == labels[..b];
    if ApprovedIn(ActionsAt(t, labels[..a]), id) {
      StillApproved(ActionsAt(t, labels[..a]), ActionsAt(t, labels[..b]), id);
    }
  }

  /** That label is the only one with which the action became approved. */
  lemma OneApproval(t: Decimal, labels: seq<Label>, id: nat, j: nat)
    requires ApprovedIn(ActionsAt(t, labels), id) && j < |labels|
    requires !ApprovedIn(ActionsAt(t, labels[..j]), id) && ApprovedIn(ActionsAt(t, labels[..j + 1]), id)
    ensures j == ApprovedAt(t, labels, id)
  {
    var i := ApprovedAt(t, labels, id);
    Approved(t, labels, id, i);
    if j < i {
      ApprovedFrom(t, labels, j + 1, i, id);
    } else if i < j {
      ApprovedFrom(t, labels, i + 1, j, id);
    }
  }

  // ----- The poll in terms of the labels -----

  predicate ApproveTimesGrow(labels: seq<Label>) {
    forall i, j | 0 <= i < j < |labels| && labels[i].Approve? && labels[j].Approve? :: labels[i].now <= labels[j].now
  }

  /** At the same or an earlier position, or at the same time. */
  predicate NoLater(labels: seq<Label>, i: nat, j: nat) {
    i < |labels| && j < |labels| && labels[i].Approve? && labels[j].Approve?
    && (i <= j || labels[i].now == labels[j].now)
  }

  /** The other approved actions whose Approve label is no later than the action's. */
  function ApprovedBefore(t: Decimal, labels: seq<Label>, id: nat): set<nat>
    requires IsApproved(ActionsAt(t, labels), id)
  {
    set x | x in ActionsAt(t, labels) && x != id && IsApproved(ActionsAt(t, labels), x)
            && NoLater(labels, ApprovedAt(t, labels, x), ApprovedAt(t, labels, id))
  }

  lemma OrderOfApprovals(t: Decimal, labels: seq<Label>, x: nat, y: nat)
    requires ApproveTimesGrow(labels) && IsApproved(ActionsAt(t, labels), x) && IsApproved(ActionsAt(t, labels), y)
    ensures ActionsAt(t, labels)[x].approvedAt <= ActionsAt(t, labels)[y].approvedAt
            <==> NoLater(labels, ApprovedAt(t, labels, x), ApprovedAt(t, labels, y))
  {
    Approved(t, labels, x, ApprovedAt(t, labels, x));
    Approved(t, labels, y, ApprovedAt(t, labels, y));
  }

  /** If the clock does not run backwards, an approved action is in every poll if and only if fewer
      than 25 other actions that are still approved were approved before it or at the same time, by
      the order of the Approve labels. */
  lemma InEveryPollByLabels(t: Decimal, labels: seq<Label>, id: nat, actions: Actions)
    requires actions == ActionsAt(t, labels) && ApproveTimesGrow(labels) && IsApproved(actions, id)
    ensures (forall rows: seq<Polled> | IsPoll(actions, rows) :: Polled(id, actions[id]) in rows)
            <==> |ApprovedBefore(t, labels, id)| < 25
  {
    forall x | x in actions && x != id && IsApproved(actions, x)
      ensures x in NotLater(actions, id) <==> x in ApprovedBefore(t, labels, id)
    {
      OrderOfApprovals(t, labels, x, id);
    }
    assert NotLater(actions, id) == ApprovedBefore(t, labels, id);
    InEveryPoll(actions, id);
  }

  lemma RowsInOrder(actions: Actions, rows: seq<Polled>, a: nat, b: nat)
    requires IsPoll(actions, rows) && a < |rows| && b < |rows| && rows[a].action.approvedAt < rows[b].action.approvedAt
    ensures a < b
  {
  }

  lemma PolledTime(t: Decimal, labels: seq<Label>, rows: seq<Polled>, a: nat, i: nat)
    requires IsPoll(ActionsAt(t, labels), rows) && a < |rows| && ApprovedIn(ActionsAt(t, labels), rows[a].actionId)
    requires i == ApprovedAt(t, labels, rows[a].actionId)
    ensures labels[i].Approve? && rows[a].action.approvedAt == labels[i].now
  {
    assert rows[a] in rows;
    Approved(t, labels, rows[a].actionId, i);
  }

  /** So the earlier approval comes first: of two actions in a poll, the one whose Approve label has
      the earlier time stands in front. */
  lemma PolledInOrder(t: Decimal, labels: seq<Label>, rows: seq<Polled>, a: nat, b: nat, i: nat, j: nat)
    requires IsPoll(ActionsAt(t, labels), rows) && a < |rows| && b < |rows|
    requires ApprovedIn(ActionsAt(t, labels), rows[a].actionId) && i == ApprovedAt(t, labels, rows[a].actionId)
    requires ApprovedIn(ActionsAt(t, labels), rows[b].actionId) && j == ApprovedAt(t, labels, rows[b].actionId)
    ensures labels[i].Approve? && labels[j].Approve? && (labels[i].now < labels[j].now ==> a < b)
  {
    PolledTime(t, labels, rows, a, i);
    PolledTime(t, labels, rows, b, j);
    if labels[i].now < labels[j].now { RowsInOrder(ActionsAt(t, labels), rows, a, b); }
  }
}
