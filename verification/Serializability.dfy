/** Why the recorders' commits may be assumed to find their broker's rows as they read them: the
    recorders are run without that condition, and it is derived from the histories they leave. */
module Serializability {
  import opened Texts
  import opened HashChain
  import opened Recorder

  /** What a committed transaction read and wrote. */
  datatype Committed = Committed(snapshot: seq<Row>, row: Row)

  /** The tables, and the committed transactions in commit order. */
  datatype Free = Free(st: State, log: seq<Committed>)

  /** As `Step`, but a recorder commits whatever has been committed since its snapshot; only the
      unique indexes of the table stop it. */
  function FreeStep(s: Scheme, fr: Free, l: Label): Free {
    if l.Commit? && l.tx in fr.st.txs && fr.st.txs[l.tx].Inserted? then
      FreeCommit(fr, fr.st.txs[l.tx], fr.st.txs - {l.tx})
    else fr.(st := Step(s, fr.st, l))
  }

  function FreeCommit(fr: Free, tx: Tx, others: map<nat, Tx>): Free
    requires tx.Inserted?
  {
    if Unique(fr.st.rows, tx.row.trade) then
      Free(fr.st.(rows := fr.st.rows + [tx.row], txs := others), fr.log + [Committed(tx.snapshot, tx.row)])
    else fr.(st := fr.st.(txs := others))
  }

  function FreeRun(s: Scheme, labels: seq<Label>): Free {
    if labels == [] then Free(INITIAL, [])
    else FreeStep(s, FreeRun(s, labels[..|labels| - 1]), labels[|labels| - 1])
  }

  /** Of two recorders of one broker the later one in a serial order has read the earlier one's row. */
  predicate InSomeOrder(x: Committed, y: Committed) {
    x.row.trade.brokerId == y.row.trade.brokerId ==> x.row in y.snapshot || y.row in x.snapshot
  }

  predicate Serializable(log: seq<Committed>) {
    forall i, j | 0 <= i < j < |log| :: InSomeOrder(log[i], log[j])
  }

  // ----- What every step keeps -----

  predicate Logged(rows: seq<Row>, log: seq<Committed>) {
    |log| == |rows| && forall i | 0 <= i < |log| :: log[i].row == rows[i] && log[i].snapshot <= rows[..i]
  }

  predicate TxFits(rows: seq<Row>, tx: Tx) {
    tx.snapshot <= rows && (tx.Inserted? ==> tx.row.trade.brokerId == tx.fill.brokerId)
  }

  predicate FreeOk(fr: Free) {
    && Logged(fr.st.rows, fr.log) && DistinctHashes(fr.st.rows)
    && forall tx | tx in fr.st.txs :: TxFits(fr.st.rows, fr.st.txs[tx])
  }

  lemma LoggedCommit(rows: seq<Row>, log: seq<Committed>, snapshot: seq<Row>, row: Row)
    requires Logged(rows, log) && snapshot <= rows
    ensures Logged(rows + [row], log + [Committed(snapshot, row)])
  {
    forall i | 0 <= i < |log| + 1 ensures (log + [Committed(snapshot, row)])[i].snapshot <= (rows + [row])[..i] {
      assert (rows + [row])[..i] == rows[..i];
    }
    assert rows[..|rows|] == rows;
  }

  lemma FreeCommitKeeps(fr: Free, tx: nat)
    requires FreeOk(fr) && tx in fr.st.txs && fr.st.txs[tx].Inserted?
    ensures FreeOk(FreeCommit(fr, fr.st.txs[tx], fr.st.txs - {tx}))
  {
    LoggedCommit(fr.st.rows, fr.log, fr.st.txs[tx].snapshot, fr.st.txs[tx].row);
  }

  lemma FreeStepKeeps(s: Scheme, fr: Free, l: Label)
    requires FreeOk(fr)
    ensures FreeOk(FreeStep(s, fr, l))
  {
    if l.Commit? && l.tx in fr.st.txs && fr.st.txs[l.tx].Inserted? {
      FreeCommitKeeps(fr, l.tx);
    }
  }

  lemma {:induction false} FreeRunOk(s: Scheme, labels: seq<Label>)
    ensures FreeOk(FreeRun(s, labels))
  {
    if labels != [] {
      FreeRunOk(s, labels[..|labels| - 1]);
      FreeStepKeeps(s, FreeRun(s, labels[..|labels| - 1]), labels[|labels| - 1]);
    }
  }

  // ----- One commit -----

  predicate Guard(rows: seq<Row>, snapshot: seq<Row>, b: Text) {
    OfBroker(rows, b) == OfBroker(snapshot, b)
  }

  lemma {:induction false} OthersOnly(rows: seq<Row>, n: nat, b: Text)
    requires n <= |rows| && forall i | n <= i < |rows| :: rows[i].trade.brokerId != b
    ensures Guard(rows, rows[..n], b)
  {
    if n < |rows| {
      var m := |rows| - 1;
      OthersOnly(rows[..m], n, b);
      assert rows[..m][..n] == rows[..n];
    } else {
      assert rows[..n] == rows;
    }
  }

  /** A row is not in a snapshot that was taken before it was committed. */
  lemma NotYetSeen(rows: seq<Row>, snapshot: seq<Row>, i: nat)
    requires DistinctHashes(rows) && snapshot <= rows && |snapshot| <= i < |rows|
    ensures rows[i] !in snapshot
  {
    assert forall k | 0 <= k < |snapshot| :: snapshot[k] == rows[k];
  }

  lemma Unseen(rows: seq<Row>, snapshot: seq<Row>, row: Row, i: nat)
    requires Unique(rows, row.trade) && i <= |rows| && snapshot <= rows[..i]
    ensures row !in snapshot
  {
    assert forall k | 0 <= k < |snapshot| :: snapshot[k] == rows[k] && rows[k] in rows;
  }

  /** The condition holds at a commit exactly if the commit is in some order with every earlier one. */
  lemma GuardExactly(fr: Free, snapshot: seq<Row>, row: Row)
    requires FreeOk(fr) && snapshot <= fr.st.rows && Unique(fr.st.rows, row.trade)
    ensures Guard(fr.st.rows, snapshot, row.trade.brokerId)
            <==> forall i | 0 <= i < |fr.log| :: InSomeOrder(fr.log[i], Committed(snapshot, row))
  {
    var rows, b := fr.st.rows, row.trade.brokerId;
    if Guard(rows, snapshot, b) {
      forall i | 0 <= i < |fr.log| ensures InSomeOrder(fr.log[i], Committed(snapshot, row)) {
        OfBrokerMember(rows, b, rows[i]);
        OfBrokerMember(snapshot, b, rows[i]);
      }
    }
    if forall i | 0 <= i < |fr.log| :: InSomeOrder(fr.log[i], Committed(snapshot, row)) {
      forall i | |snapshot| <= i < |rows| ensures rows[i].trade.brokerId != b {
        assert InSomeOrder(fr.log[i], Committed(snapshot, row));
        NotYetSeen(rows, snapshot, i);
        Unseen(rows, fr.log[i].snapshot, row, i);
      }
      OthersOnly(rows, |snapshot|, b);
      assert rows[..|snapshot|] == snapshot;
    }
  }

  // ----- Whole runs -----

  /** Whenever a recorder commits, its broker's rows are those of its snapshot. */
  predicate AllGuarded(s: Scheme, labels: seq<Label>) {
    labels == []
    || (AllGuarded(s, labels[..|labels| - 1])
        && GuardedStep(FreeRun(s, labels[..|labels| - 1]).st, labels[|labels| - 1]))
  }

  predicate GuardedStep(st: State, l: Label) {
    l.Commit? && l.tx in st.txs && st.txs[l.tx].Inserted? && Unique(st.rows, st.txs[l.tx].row.trade) ==>
      Guard(st.rows, st.txs[l.tx].snapshot, st.txs[l.tx].row.trade.brokerId)
  }

  lemma SerializableSnoc(log: seq<Committed>, c: Committed)
    ensures Serializable(log + [c])
            <==> Serializable(log) && forall i | 0 <= i < |log| :: InSomeOrder(log[i], c)
  {
    var all := log + [c];
    assert forall i | 0 <= i < |log| :: all[i] == log[i];
    if Serializable(all) {
      assert forall i | 0 <= i < |log| :: InSomeOrder(all[i], all[|log|]);
    }
  }

  lemma StepSerializable(s: Scheme, fr: Free, l: Label)
    requires FreeOk(fr)
    ensures Serializable(FreeStep(s, fr, l).log) <==> Serializable(fr.log) && GuardedStep(fr.st, l)
  {
    if l.Commit? && l.tx in fr.st.txs && fr.st.txs[l.tx].Inserted? && Unique(fr.st.rows, fr.st.txs[l.tx].row.trade) {
      var tx := fr.st.txs[l.tx];
      GuardExactly(fr, tx.snapshot, tx.row);
      SerializableSnoc(fr.log, Committed(tx.snapshot, tx.row));
    }
  }

  /** The histories that are serializable are exactly those in which every commit is guarded. */
  lemma {:induction false} SerializableExactly(s: Scheme, labels: seq<Label>)
    ensures Serializable(FreeRun(s, labels).log) <==> AllGuarded(s, labels)
  {
    if labels != [] {
      var n := |labels| - 1;
      SerializableExactly(s, labels[..n]);
      FreeRunOk(s, labels[..n]);
      StepSerializable(s, FreeRun(s, labels[..n]), labels[n]);
    }
  }

  lemma GuardedSame(s: Scheme, fr: Free, l: Label)
    requires FreeOk(fr) && GuardedStep(fr.st, l)
    ensures FreeStep(s, fr, l).st == Step(s, fr.st, l)
  {
  }

  lemma {:induction false} GuardedRun(s: Scheme, labels: seq<Label>)
    requires AllGuarded(s, labels)
    ensures FreeRun(s, labels).st == Run(s, labels)
  {
    if labels != [] {
      var n := |labels| - 1;
      GuardedRun(s, labels[..n]);
      FreeRunOk(s, labels[..n]);
      GuardedSame(s, FreeRun(s, labels[..n]), labels[n]);
    }
  }

  /** In every serializable history of unguarded recorders, each broker's rows are one intact
      chain. */
  lemma SerializableChain(s: Scheme, labels: seq<Label>, b: Text)
    requires Serializable(FreeRun(s, labels).log)
    ensures FreeRun(s, labels).st == Run(s, labels)
    ensures Intact(s, Items(OfBroker(FreeRun(s, labels).st.rows, b)))
  {
    SerializableExactly(s, labels);
    GuardedRun(s, labels);
    OneChain(s, labels, b);
  }
}
