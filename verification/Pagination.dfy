/** Listing a broker's trades page by page, newest first, while new trades are recorded. */
module Pagination {
  import opened Texts
  import T = Trades
  import R = Recorder
  import HashChain
  import opened PendingActions

  datatype TradeRow = TradeRow(id: nat, brokerId: Text, symbol: Text, side: T.Side, executedAt: int)

  datatype Query = Query(
    brokerId: Text,
    symbol: Option<Text>,
    side: Option<T.Side>,
    since: Option<int>,
    until: Option<int>,
    cursor: Option<int>,
    limit: nat)

  datatype Condition =
    | BrokerIs(brokerId: Text)
    | SymbolIs(symbol: Text)
    | SideIs(side: T.Side)
    | ExecutedFrom(time: int)
    | ExecutedBefore(time: int)
    | IdAtMost(id: int)

  predicate Holds(c: Condition, row: TradeRow) {
    match c
    case BrokerIs(b) => row.brokerId == b
    case SymbolIs(s) => row.symbol == s
    case SideIs(s) => row.side == s
    case ExecutedFrom(t) => row.executedAt >= t
    case ExecutedBefore(t) => row.executedAt < t
    case IdAtMost(id) => row.id <= id
  }

  predicate HoldsAll(cs: seq<Condition>, row: TradeRow) {
    forall c | c in cs :: Holds(c, row)
  }

  /** What the query asks for; an empty symbol asks for nothing. */
  predicate Matches(q: Query, row: TradeRow) {
    && row.brokerId == q.brokerId
    && (q.symbol.Some? && q.symbol.value != [] ==> row.symbol == q.symbol.value)
    && (q.side.Some? ==> row.side == q.side.value)
    && (q.since.Some? ==> row.executedAt >= q.since.value)
    && (q.until.Some? ==> row.executedAt < q.until.value)
    && (q.cursor.Some? ==> row.id <= q.cursor.value)
  }

  lemma ConditionAdded(cs: seq<Condition>, c: Condition)
    ensures forall row: TradeRow :: HoldsAll(cs + [c], row) <==> HoldsAll(cs, row) && Holds(c, row)
  {
    forall row: TradeRow ensures HoldsAll(cs + [c], row) <==> HoldsAll(cs, row) && Holds(c, row) {
      assert c in cs + [c];
      assert forall x | x in cs :: x in cs + [c];
    }
  }

  method Push(cs: seq<Condition>, c: Condition) returns (r: seq<Condition>)
    ensures forall row: TradeRow :: HoldsAll(r, row) <==> HoldsAll(cs, row) && Holds(c, row)
  {
    ConditionAdded(cs, c);
    r := cs + [c];
  }

  /** The conditions hold of exactly the rows that match. */
  method Conditions(q: Query) returns (cs: seq<Condition>)
    ensures forall row: TradeRow :: HoldsAll(cs, row) <==> Matches(q, row)
  {
    cs := Push([], BrokerIs(q.brokerId));
    if q.symbol.Some? && q.symbol.value != [] {
      cs := Push(cs, SymbolIs(q.symbol.value));
    }
    if q.side.Some? {
      cs := Push(cs, SideIs(q.side.value));
    }
    if q.since.Some? {
      cs := Push(cs, ExecutedFrom(q.since.value));
    }
    if q.until.Some? {
      cs := Push(cs, ExecutedBefore(q.until.value));
    }
    if q.cursor.Some? {
      cs := Push(cs, IdAtMost(q.cursor.value));
    }
  }

  // ----- Queries -----

  function Where(table: seq<TradeRow>, cs: seq<Condition>): seq<TradeRow> {
    if table == [] then []
    else
      var n := |table| - 1;
      Where(table[..n], cs) + if HoldsAll(cs, table[n]) then [table[n]] else []
  }

  function InsertDescending(r: TradeRow, rows: seq<TradeRow>): seq<TradeRow> {
    if rows == [] || r.id >= rows[0].id then [r] + rows else [rows[0]] + InsertDescending(r, rows[1..])
  }

  /** `ORDER BY id DESC` */
  function Descending(rows: seq<TradeRow>): seq<TradeRow> {
    if rows == [] then [] else InsertDescending(rows[|rows| - 1], Descending(rows[..|rows| - 1]))
  }

  function Limit(rows: seq<TradeRow>, n: nat): seq<TradeRow> {
    if |rows| <= n then rows else rows[..n]
  }

  /** The rows that match, in table order. */
  function Matching(table: seq<TradeRow>, q: Query): seq<TradeRow> {
    if table == [] then []
    else
      var n := |table| - 1;
      Matching(table[..n], q) + if Matches(q, table[n]) then [table[n]] else []
  }

  function Page(table: seq<TradeRow>, q: Query): seq<TradeRow> {
    Limit(Descending(Matching(table, q)), q.limit)
  }

  lemma {:induction false} WhereMatching(table: seq<TradeRow>, cs: seq<Condition>, q: Query)
    requires forall row: TradeRow :: HoldsAll(cs, row) <==> Matches(q, row)
    ensures Where(table, cs) == Matching(table, q)
  {
    if table != [] {
      WhereMatching(table[..|table| - 1], cs, q);
    }
  }

  method FindByBroker(table: seq<TradeRow>, q: Query) returns (rows: seq<TradeRow>)
    ensures rows == Page(table, q)
  {
    var cs := Conditions(q);
    WhereMatching(table, cs, q);
    rows := Limit(Descending(Where(table, cs)), q.limit);
  }

  function NextCursor(items: seq<TradeRow>, limit: nat): Option<int> {
    if |items| == limit && items != [] then Some(items[|items| - 1].id - 1) else None
  }

  method List(table: seq<TradeRow>, q: Query) returns (items: seq<TradeRow>, nextCursor: Option<int>)
    ensures items == Page(table, q) && nextCursor == NextCursor(items, q.limit)
  {
    items := FindByBroker(table, q);
    if |items| == q.limit && items != [] {
      nextCursor := Some(items[|items| - 1].id - 1);
    } else {
      nextCursor := None;
    }
  }

  // ----- Rows in id order -----

  predicate Increasing(rows: seq<TradeRow>) {
    forall i, j | 0 <= i < j < |rows| :: rows[i].id < rows[j].id
  }

  /** Each broker's rows are committed in id order, as the recorders do. */
  predicate InBrokerOrder(table: seq<TradeRow>) {
    forall i, j | 0 <= i < j < |table| && table[i].brokerId == table[j].brokerId :: table[i].id < table[j].id
  }

  function Reverse(rows: seq<TradeRow>): (r: seq<TradeRow>)
    ensures |r| == |rows| && forall i | 0 <= i < |r| :: r[i] == rows[|rows| - 1 - i]
  {
    seq(|rows|, i requires 0 <= i < |rows| => rows[|rows| - 1 - i])
  }

  lemma {:induction false} DescendingIsReverse(rows: seq<TradeRow>)
    requires Increasing(rows)
    ensures Descending(rows) == Reverse(rows)
  {
    if rows != [] {
      var n := |rows| - 1;
      DescendingIsReverse(rows[..n]);
      assert n > 0 ==> Reverse(rows[..n])[0] == rows[n - 1];
      assert Reverse(rows) == [rows[n]] + Reverse(rows[..n]);
    }
  }

  lemma {:induction false} MatchingMember(table: seq<TradeRow>, q: Query, r: TradeRow)
    ensures r in Matching(table, q) <==> r in table && Matches(q, r)
  {
    if table != [] {
      var n := |table| - 1;
      MatchingMember(table[..n], q, r);
      assert table == table[..n] + [table[n]];
    }
  }

  lemma {:induction false} MatchingIncreasing(table: seq<TradeRow>, q: Query)
    requires InBrokerOrder(table)
    ensures Increasing(Matching(table, q))
  {
    if table != [] {
      var n := |table| - 1;
      MatchingIncreasing(table[..n], q);
      forall r | r in Matching(table[..n], q) && Matches(q, table[n]) ensures r.id < table[n].id {
        MatchingMember(table[..n], q, r);
      }
    }
  }

  lemma {:induction false} MatchingAppend(table: seq<TradeRow>, more: seq<TradeRow>, q: Query)
    ensures Matching(table + more, q) == Matching(table, q) + Matching(more, q)
  {
    if more == [] {
      assert table + more == table;
    } else {
      var n := |more| - 1;
      MatchingAppend(table, more[..n], q);
      assert (table + more)[..|table| + n] == table + more[..n];
      Assoc(Matching(table, q), Matching(more[..n], q), if Matches(q, more[n]) then [more[n]] else []);
    }
  }

  // ----- A cursor cuts the rows in front of a position -----

  /** Exactly the first `k` rows have ids up to `c`. */
  predicate CutsAt(rows: seq<TradeRow>, c: int, k: nat) {
    && k <= |rows|
    && (forall i | 0 <= i < k :: rows[i].id <= c)
    && (forall i | k <= i < |rows| :: rows[i].id > c)
  }

  lemma {:induction false} CursorPrefix(table: seq<TradeRow>, q: Query, c: int, k: nat)
    requires q.cursor.None? && CutsAt(Matching(table, q), c, k)
    ensures Matching(table, q.(cursor := Some(c))) == Matching(table, q)[..k]
  {
    if table != [] {
      var n, q' := |table| - 1, q.(cursor := Some(c));
      var m, init := Matching(table, q), Matching(table[..n], q);
      PrefixCuts(init, m, c, k);
      if !Matches(q, table[n]) {
        assert m == init;
        CursorPrefix(table[..n], q, c, k);
      } else if k <= |init| {
        assert m[|init|] == table[n] && !Matches(q', table[n]);
        CursorPrefix(table[..n], q, c, k);
        assert m[..k] == init[..k];
      } else {
        assert m[|init|] == table[n] && Matches(q', table[n]);
        CursorPrefix(table[..n], q, c, k - 1);
        assert m[..k] == init + [table[n]] && init[..k - 1] == init;
      }
    }
  }

  lemma PrefixCuts(init: seq<TradeRow>, m: seq<TradeRow>, c: int, k: nat)
    requires init <= m && |m| <= |init| + 1 && CutsAt(m, c, k)
    ensures CutsAt(init, c, if k <= |init| then k else k - 1)
  {
    assert forall i | 0 <= i < |init| :: init[i] == m[i];
  }

  // ----- Following the cursor -----

  /** The table seen by the client's `k`-th request: it only grows, and each broker's rows stay in
      id order. */
  ghost predicate GrowsOnly(tables: nat -> seq<TradeRow>) {
    && (forall k: nat :: InBrokerOrder(tables(k)))
    && (forall k: nat :: tables(k) <= tables(k + 1))
  }

  lemma {:induction false} FirstIsPrefix(tables: nat -> seq<TradeRow>, k: nat)
    requires GrowsOnly(tables)
    ensures tables(0) <= tables(k)
  {
    if k > 0 {
      FirstIsPrefix(tables, k - 1);
      assert tables(k - 1) <= tables(k - 1 + 1);
    }
  }

  /** Rows appended later lie above every row of the first table. */
  lemma LaterCuts(table: seq<TradeRow>, later: seq<TradeRow>, q: Query, c: int, k: nat)
    requires table <= later && InBrokerOrder(later) && q.cursor.None?
    requires CutsAt(Matching(table, q), c, k) && k < |Matching(table, q)|
    ensures CutsAt(Matching(later, q), c, k) && Matching(table, q) <= Matching(later, q)
  {
    var more := later[|table|..];
    assert later == table + more;
    MatchingAppend(table, more, q);
    MatchingIncreasing(later, q);
    var m, all := Matching(table, q), Matching(later, q);
    assert forall i | 0 <= i < |m| :: all[i] == m[i];
    forall i | k <= i < |all| ensures all[i].id > c {
      assert all[k] == m[k];
    }
  }

  lemma ReverseSplit(rows: seq<TradeRow>, i: nat)
    requires i <= |rows|
    ensures Reverse(rows) == Reverse(rows[i..]) + Reverse(rows[..i])
  {
    var a, upper, lower := Reverse(rows), Reverse(rows[i..]), Reverse(rows[..i]);
    var b := upper + lower;
    forall j | 0 <= j < |a| ensures a[j] == b[j] {
      assert j < |upper| ==> b[j] == upper[j];
      assert j >= |upper| ==> b[j] == lower[j - |upper|];
    }
  }

  /** A page is the last rows in front of the cursor, reversed. */
  lemma PageIsSlice(table: seq<TradeRow>, q: Query, rows: seq<TradeRow>)
    requires InBrokerOrder(table) && Matching(table, q) == rows
    ensures var n := if |rows| <= q.limit then 0 else |rows| - q.limit;
            Page(table, q) == Reverse(rows[n..])
  {
    MatchingIncreasing(table, q);
    DescendingIsReverse(rows);
    var n := if |rows| <= q.limit then 0 else |rows| - q.limit;
    ReverseSplit(rows, n);
    assert n == 0 ==> rows[0..] == rows;
  }

  /** What has been listed: the rows from position `k` on, newest first; and the next cursor cuts
      there. */
  predicate Listed(m: seq<TradeRow>, all: seq<TradeRow>, next: Option<int>, k: nat) {
    && k <= |m| && all == Reverse(m[k..])
    && (next.None? ==> k == 0)
    && (next.Some? ==> k < |m| && CutsAt(m, next.value, k))
  }

  lemma PageExtends(m: seq<TradeRow>, all: seq<TradeRow>, items: seq<TradeRow>, k: nat, limit: nat)
    requires Increasing(m) && k <= |m| && all == Reverse(m[k..]) && limit > 0
    requires var n := if k <= limit then 0 else k - limit; items == Reverse(m[..k][n..])
    ensures var n := if k <= limit then 0 else k - limit;
            Listed(m, all + items, NextCursor(items, limit), n)
  {
    var n := if k <= limit then 0 else k - limit;
    var upper := m[n..];
    assert upper[k - n..] == m[k..] && upper[..k - n] == m[..k][n..];
    ReverseSplit(upper, k - n);
    if |items| == limit {
      assert items[|items| - 1] == m[n];
    }
  }

  function RowsBefore(k: nat, limit: nat): nat {
    if k <= limit then 0 else k - limit
  }

  lemma FirstPage(table: seq<TradeRow>, q: Query)
    requires InBrokerOrder(table) && q.cursor.None? && q.limit > 0
    ensures var m, items := Matching(table, q), Page(table, q);
            Increasing(m) && Listed(m, items, NextCursor(items, q.limit), RowsBefore(|m|, q.limit))
  {
    var m := Matching(table, q);
    MatchingIncreasing(table, q);
    PageIsSlice(table, q, m);
    assert m[..|m|] == m && Reverse(m[|m|..]) == [] && [] + Page(table, q) == Page(table, q);
    PageExtends(m, [], Page(table, q), |m|, q.limit);
  }

  lemma LaterPage(table: seq<TradeRow>, later: seq<TradeRow>, q: Query, all: seq<TradeRow>, next: Option<int>, k: nat)
    requires InBrokerOrder(table) && InBrokerOrder(later) && table <= later && q.cursor.None? && q.limit > 0
    requires Listed(Matching(table, q), all, next, k) && next.Some?
    ensures var items := Page(later, q.(cursor := next));
            Listed(Matching(table, q), all + items, NextCursor(items, q.limit), RowsBefore(k, q.limit))
    ensures k == 0 ==> NextCursor(Page(later, q.(cursor := next)), q.limit).None?
  {
    var m := Matching(table, q);
    MatchingIncreasing(table, q);
    LaterCuts(table, later, q, next.value, k);
    CursorPrefix(later, q, next.value, k);
    assert Matching(later, q)[..k] == m[..k];
    PageIsSlice(later, q.(cursor := next), m[..k]);
    PageExtends(m, all, Page(later, q.(cursor := next)), k, q.limit);
  }

  /** Following `nextCursor` to the end lists every matching trade of the first request's table
      exactly once, newest first, whatever is appended between the pages. */
  method ListAll(tables: nat -> seq<TradeRow>, q: Query) returns (all: seq<TradeRow>)
    requires GrowsOnly(tables) && q.cursor.None? && q.limit > 0
    ensures all == Reverse(Matching(tables(0), q))
  {
    var items, next := List(tables(0), q);
    FirstPage(tables(0), q);
    all := items;
    ghost var m := Matching(tables(0), q);
    ghost var k := RowsBefore(|m|, q.limit);
    var request: nat := 1;
    while next.Some?
      invariant Listed(m, all, next, k)
      decreases k, next.Some?
    {
      FirstIsPrefix(tables, request);
      LaterPage(tables(0), tables(request), q, all, next, k);
      items, next := List(tables(request), q.(cursor := next));
      all := all + items;
      k := RowsBefore(k, q.limit);
      request := request + 1;
    }
    assert m[0..] == m;
  }

  /** The same rows, once each: listing loses and repeats nothing. */
  lemma ListedOnce(table: seq<TradeRow>, q: Query, r: TradeRow)
    requires InBrokerOrder(table)
    ensures var all := Reverse(Matching(table, q));
            && (r in all <==>
                  && r in table && r.brokerId == q.brokerId
                  && (q.symbol.Some? && q.symbol.value != [] ==> r.symbol == q.symbol.value)
                  && (q.side.Some? ==> r.side == q.side.value)
                  && (q.since.Some? ==> q.since.value <= r.executedAt)
                  && (q.until.Some? ==> r.executedAt < q.until.value)
                  && (q.cursor.Some? ==> r.id <= q.cursor.value))
            && forall i, j | 0 <= i < j < |all| :: all[i].id > all[j].id
  {
    var m := Matching(table, q);
    MatchingMember(table, q, r);
    MatchingIncreasing(table, q);
    var all := Reverse(m);
    if r in m {
      var i :| 0 <= i < |m| && m[i] == r;
      assert all[|m| - 1 - i] == r;
    }
  }

  // ----- The recorders' tables -----

  /** The columns that are listed; `time` reads the timestamp. */
  function TableOf(rows: seq<R.Row>, time: Text -> int): (table: seq<TradeRow>)
    ensures |table| == |rows|
  {
    seq(|rows|, i requires 0 <= i < |rows| =>
      var t := rows[i].trade; TradeRow(rows[i].id, t.brokerId, t.symbol, t.side, time(t.executedAt)))
  }

  function TablesOf(s: HashChain.Scheme, runs: nat -> seq<R.Label>, time: Text -> int): nat -> seq<TradeRow> {
    (k: nat) => TableOf(R.Run(s, runs(k)).rows, time)
  }

  /** What the recorders commit, seen at any later and later moments of a run, is a table that the
      client can follow. */
  lemma RecordedTablesGrow(s: HashChain.Scheme, runs: nat -> seq<R.Label>, time: Text -> int)
    requires forall k: nat :: runs(k) <= runs(k + 1)
    ensures GrowsOnly(TablesOf(s, runs, time))
  {
    var tables := TablesOf(s, runs, time);
    forall k: nat ensures InBrokerOrder(tables(k)) && tables(k) <= tables(k + 1) {
      var rows, next := R.Run(s, runs(k)).rows, R.Run(s, runs(k + 1)).rows;
      forall i, j | 0 <= i < j < |rows| && rows[i].trade.brokerId == rows[j].trade.brokerId
        ensures rows[i].id < rows[j].id
      {
        R.CommittedInOrder(s, runs(k), i, j);
      }
      assert runs(k + 1) == runs(k) + runs(k + 1)[|runs(k)|..];
      R.RowsStay(s, runs(k), runs(k + 1)[|runs(k)|..]);
      assert forall i | 0 <= i < |rows| :: rows[i] == next[i];
    }
  }
}
