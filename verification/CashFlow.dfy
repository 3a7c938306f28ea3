/** Realised profit and loss as money in and out: what the sales of paired legs brought in minus
    what their purchases cost. */
module CashFlow {
  import opened Texts
  import opened Commissions
  import opened Funds
  import opened PendingActions
  import opened Pnl
  import T = Trades

  // ----- Pairs, by their ids -----

  predicate Opening(l: Leg, id: Text) {
    l.coid == Some(id) && id != [] && !Closing(id)
  }

  /** The id with the code units of `-C` behind it. */
  predicate Closes(l: Leg, id: Text) {
    l.coid == Some(id + [0x2D, 0x43])
  }

  predicate Pair(open: Leg, close: Leg) {
    open.coid.Some? && Opening(open, open.coid.value) && Closes(close, open.coid.value)
  }

  /** A sale brings its price in for every unit, a purchase costs it. */
  function Cash(l: Leg): int {
    if l.side == T.SELL then l.price * l.qty else 0 - l.price * l.qty
  }

  predicate Paired(legs: seq<Leg>, l: Leg) {
    exists m | m in legs :: Pair(l, m) || Pair(m, l)
  }

  /** Sales minus purchases of the paired legs among `some`. */
  function NetCash(legs: seq<Leg>, some: seq<Leg>): int {
    if some == [] then 0
    else
      var n := |some| - 1;
      NetCash(legs, some[..n]) + if Paired(legs, some[n]) then Cash(some[n]) else 0
  }

  /** No leg has two counterparts, and counterparts trade the same quantity on opposite sides. */
  predicate WellPaired(legs: seq<Leg>) {
    && (forall i, j, k | 0 <= i < j < |legs| && 0 <= k < |legs| ::
          !(Pair(legs[i], legs[k]) && Pair(legs[j], legs[k])) && !(Pair(legs[k], legs[i]) && Pair(legs[k], legs[j])))
    && forall o, c | o in legs && c in legs && Pair(o, c) :: o.side != c.side && o.qty == c.qty
  }

  // ----- The same pairs as in the loops -----

  lemma SameOpen(l: Leg, id: Text)
    ensures IsOpen(l, id) <==> Opening(l, id)
  {
    SuffixIs(id);
  }

  lemma SameClose(l: Leg)
    ensures IsClose(l) <==> l.coid.Some? && Closing(l.coid.value)
    ensures IsClose(l) ==> Closes(l, OpenId(l))
    ensures forall id :: Closes(l, id) ==> IsClose(l) && OpenId(l) == id
  {
    if l.coid.Some? {
      var t := l.coid.value;
      SuffixIs(t);
      if Closing(t) { assert t == t[..|t| - 2] + [0x2D, 0x43]; }
      forall id | Closes(l, id) ensures IsClose(l) && OpenId(l) == id {
        assert Closing(t) && t[..|t| - 2] == id;
      }
    }
  }

  lemma PairIs(o: Leg, c: Leg)
    ensures Pair(o, c) <==> IsClose(c) && IsOpen(o, OpenId(c))
  {
    SameClose(c);
    if o.coid.Some? { SameOpen(o, o.coid.value); }
    if IsClose(c) { SameOpen(o, OpenId(c)); }
  }

  lemma NotBoth(l: Leg, m: Leg, k: Leg)
    ensures !(Pair(l, m) && Pair(k, l))
  {
    PairIs(l, m);
    PairIs(k, l);
  }

  // ----- Summing the opens' cash by closes and by opens -----

  /** The cash of the opens among `os` that `c` closes. */
  function OpenCash(os: seq<Leg>, c: Leg): int {
    if os == [] then 0
    else
      var n := |os| - 1;
      OpenCash(os[..n], c) + if Pair(os[n], c) then Cash(os[n]) else 0
  }

  /** The cash of `o`, once for every close among `cs`. */
  function ClosedCash(o: Leg, cs: seq<Leg>): int {
    if cs == [] then 0
    else
      var n := |cs| - 1;
      ClosedCash(o, cs[..n]) + if Pair(o, cs[n]) then Cash(o) else 0
  }

  function ByCloses(os: seq<Leg>, cs: seq<Leg>): int {
    if cs == [] then 0 else ByCloses(os, cs[..|cs| - 1]) + OpenCash(os, cs[|cs| - 1])
  }

  function ByOpens(os: seq<Leg>, cs: seq<Leg>): int {
    if os == [] then 0 else ByOpens(os[..|os| - 1], cs) + ClosedCash(os[|os| - 1], cs)
  }

  lemma {:induction false} OneMoreOpen(os: seq<Leg>, o: Leg, cs: seq<Leg>)
    ensures ByCloses(os + [o], cs) == ByCloses(os, cs) + ClosedCash(o, cs)
  {
    if cs != [] {
      OneMoreOpen(os, o, cs[..|cs| - 1]);
      assert (os + [o])[..|os|] == os;
    }
  }

  lemma {:induction false} NoOpens(cs: seq<Leg>)
    ensures ByCloses([], cs) == 0
  {
    if cs != [] { NoOpens(cs[..|cs| - 1]); }
  }

  lemma {:induction false} Exchanged(os: seq<Leg>, cs: seq<Leg>)
    ensures ByCloses(os, cs) == ByOpens(os, cs)
  {
    if os == [] {
      NoOpens(cs);
    } else {
      var n := |os| - 1;
      Exchanged(os[..n], cs);
      OneMoreOpen(os[..n], os[n], cs);
      assert os[..n] + [os[n]] == os;
    }
  }

  predicate HasClose(o: Leg, cs: seq<Leg>) {
    exists c | c in cs :: Pair(o, c)
  }

  predicate HasOpen(os: seq<Leg>, c: Leg) {
    exists o | o in os :: Pair(o, c)
  }

  lemma HasCloseSnoc(o: Leg, cs: seq<Leg>)
    requires cs != []
    ensures HasClose(o, cs) <==> HasClose(o, cs[..|cs| - 1]) || Pair(o, cs[|cs| - 1])
  {
    assert cs == cs[..|cs| - 1] + [cs[|cs| - 1]];
  }

  lemma {:induction false} ClosedOnce(legs: seq<Leg>, n: nat, k: nat)
    requires WellPaired(legs) && n <= |legs| && k < |legs|
    ensures ClosedCash(legs[k], legs[..n]) == if HasClose(legs[k], legs[..n]) then Cash(legs[k]) else 0
  {
    if n > 0 {
      var some := legs[..n];
      ClosedOnce(legs, n - 1, k);
      HasCloseSnoc(legs[k], some);
      assert some[..n - 1] == legs[..n - 1];
    }
  }

  lemma NoEarlier(legs: seq<Leg>, n: nat, k: nat)
    requires WellPaired(legs) && n < |legs| && k < |legs| && IsClose(legs[k]) && Pair(legs[n], legs[k])
    ensures OpenOf(legs[..n], OpenId(legs[k])).None?
  {
    var open := OpenOf(legs[..n], OpenId(legs[k]));
    OpenFound(legs[..n], OpenId(legs[k]));
    if open.Some? { PairIs(open.value, legs[k]); }
  }

  lemma OpenCashSnoc(os: seq<Leg>, o: Leg, c: Leg)
    ensures OpenCash(os + [o], c) == OpenCash(os, c) + if Pair(o, c) then Cash(o) else 0
  {
    assert (os + [o])[..|os|] == os;
  }

  /** What a close is paired with by the loops is the one open it has. */
  lemma {:induction false} OpenedOnce(legs: seq<Leg>, n: nat, k: nat)
    requires WellPaired(legs) && n <= |legs| && k < |legs| && IsClose(legs[k])
    ensures var open := OpenOf(legs[..n], OpenId(legs[k]));
            OpenCash(legs[..n], legs[k]) == if open.Some? then Cash(open.value) else 0
  {
    if n > 0 {
      var c, some := legs[k], legs[..n - 1];
      OpenedOnce(legs, n - 1, k);
      assert legs[..n] == some + [legs[n - 1]];
      OpenCashSnoc(some, legs[n - 1], c);
      OpenOfConcat(some, [legs[n - 1]], OpenId(c));
      PairIs(legs[n - 1], c);
      if Pair(legs[n - 1], c) { NoEarlier(legs, n - 1, k); }
    }
  }

  lemma NotClosed(os: seq<Leg>, c: Leg)
    requires !IsClose(c)
    ensures OpenCash(os, c) == 0 && !HasOpen(os, c)
  {
    forall o ensures !Pair(o, c) { PairIs(o, c); }
  }

  // ----- The gain of a close -----

  /** With the same quantity on opposite sides, the gain is the cash of both legs. */
  lemma GainIsCash(o: Leg, c: Leg)
    requires o.side != c.side && o.qty == c.qty
    ensures Gain(o, c) == Cash(o) + Cash(c)
  {
    var q := o.qty;
    assert (c.price - o.price) * q == c.price * q - o.price * q;
  }

  lemma GainSplit(legs: seq<Leg>, k: nat)
    requires WellPaired(legs) && k < |legs|
    ensures GainOf(legs, legs[k]) == OpenCash(legs, legs[k]) + if HasOpen(legs, legs[k]) then Cash(legs[k]) else 0
  {
    var c := legs[k];
    if IsClose(c) {
      assert legs[..|legs|] == legs;
      OpenedOnce(legs, |legs|, k);
      OpenFound(legs, OpenId(c));
      forall o ensures Pair(o, c) <==> IsOpen(o, OpenId(c)) { PairIs(o, c); }
      if OpenOf(legs, OpenId(c)).Some? { GainIsCash(OpenOf(legs, OpenId(c)).value, c); }
    } else {
      NotClosed(legs, c);
    }
  }

  /** The cash of the legs among `some` that close another. */
  function ClosingCash(legs: seq<Leg>, some: seq<Leg>): int {
    if some == [] then 0
    else
      var n := |some| - 1;
      ClosingCash(legs, some[..n]) + if HasOpen(legs, some[n]) then Cash(some[n]) else 0
  }

  lemma {:induction false} GainsSplit(legs: seq<Leg>, n: nat)
    requires WellPaired(legs) && n <= |legs|
    ensures GainsOf(legs, legs[..n]) == ByCloses(legs, legs[..n]) + ClosingCash(legs, legs[..n])
  {
    if n > 0 {
      GainsSplit(legs, n - 1);
      assert legs[..n][..n - 1] == legs[..n - 1];
      GainSplit(legs, n - 1);
    }
  }

  lemma {:induction false} CashSplit(legs: seq<Leg>, n: nat)
    requires WellPaired(legs) && n <= |legs|
    ensures NetCash(legs, legs[..n]) == ByOpens(legs[..n], legs) + ClosingCash(legs, legs[..n])
  {
    if n > 0 {
      var l := legs[n - 1];
      CashSplit(legs, n - 1);
      assert legs[..n][..n - 1] == legs[..n - 1];
      assert legs[..|legs|] == legs;
      ClosedOnce(legs, |legs|, n - 1);
      OneRole(legs, l);
    }
  }

  lemma OneRole(legs: seq<Leg>, l: Leg)
    ensures Paired(legs, l) <==> HasClose(l, legs) || HasOpen(legs, l)
    ensures !(HasClose(l, legs) && HasOpen(legs, l))
  {
    forall m, k ensures !(Pair(l, m) && Pair(k, l)) { NotBoth(l, m, k); }
  }

  /** Cash flow: when no leg has two counterparts, and counterparts trade the same quantity on
      opposite sides, the result is what the paired sales brought in minus what the paired purchases
      cost. Legs without a counterpart count for nothing. */
  lemma RealizedIsCash(legs: seq<Leg>)
    requires WellPaired(legs)
    ensures RealizedOf(legs) == NetCash(legs, legs)
  {
    assert legs[..|legs|] == legs;
    GainsSplit(legs, |legs|);
    CashSplit(legs, |legs|);
    Exchanged(legs, legs);
  }

  // ----- A closing price -----

  predicate LastOpening(legs: seq<Leg>, k: nat, id: Text) {
    k < |legs| && Opening(legs[k], id) && forall j | k < j < |legs| :: !Opening(legs[j], id)
  }

  predicate NeverOpened(legs: seq<Leg>, id: Text) {
    forall l | l in legs :: !Opening(l, id)
  }

  lemma {:induction false} LastIs(legs: seq<Leg>, k: nat, id: Text)
    requires LastOpening(legs, k, id)
    ensures OpenOf(legs, id) == Some(legs[k])
  {
    var n := |legs| - 1;
    SameOpen(legs[n], id);
    if k < n {
      assert !Opening(legs[n], id);
      LastIs(legs[..n], k, id);
    }
  }

  lemma NeverIs(legs: seq<Leg>, id: Text)
    requires NeverOpened(legs, id)
    ensures OpenOf(legs, id).None?
  {
    OpenFound(legs, id);
    if OpenOf(legs, id).Some? { SameOpen(OpenOf(legs, id).value, id); }
  }

  function Raised(legs: seq<Leg>, i: nat, d: int): seq<Leg>
    requires i < |legs|
  {
    legs[i := legs[i].(price := legs[i].price + d)]
  }

  lemma {:induction false} OpensUnmoved(legs: seq<Leg>, i: nat, d: int, id: Text)
    requires i < |legs| && IsClose(legs[i])
    ensures OpenOf(Raised(legs, i, d), id) == OpenOf(legs, id)
  {
    var n := |legs| - 1;
    if i < n {
      assert Raised(legs, i, d)[..n] == Raised(legs[..n], i, d);
      OpensUnmoved(legs[..n], i, d, id);
    } else {
      assert Raised(legs, i, d)[..n] == legs[..n];
    }
  }

  lemma GainRaised(open: Leg, close: Leg, d: int)
    ensures Gain(open, close.(price := close.price + d)) - Gain(open, close)
            == if open.side == T.BUY then d * open.qty else 0 - d * open.qty
  {
    var q, x := open.qty, close.price - open.price;
    assert (x + d) * q == x * q + d * q;
  }

  lemma {:induction false} GainsUnmoved(legs: seq<Leg>, i: nat, d: int, some: seq<Leg>)
    requires i < |legs| && IsClose(legs[i])
    ensures GainsOf(Raised(legs, i, d), some) == GainsOf(legs, some)
  {
    if some != [] {
      GainsUnmoved(legs, i, d, some[..|some| - 1]);
      var l := some[|some| - 1];
      if IsClose(l) { OpensUnmoved(legs, i, d, OpenId(l)); }
    }
  }

  lemma RaisedDifference(legs: seq<Leg>, i: nat, d: int)
    requires i < |legs| && IsClose(legs[i])
    ensures RealizedOf(Raised(legs, i, d)) - RealizedOf(legs)
            == GainOf(legs, Raised(legs, i, d)[i]) - GainOf(legs, legs[i])
  {
    var raised := Raised(legs, i, d);
    GainsUnmoved(legs, i, d, raised);
    GainsRemove(legs, raised, i);
    GainsRemove(legs, legs, i);
    assert raised[..i] + raised[i + 1..] == legs[..i] + legs[i + 1..];
  }

  /** Raising the price of a closing leg by `d` moves the result by `d` for every unit of the last leg
      that opens its id: up if that was a purchase, down if it was a sale; not at all if there is
      none. */
  lemma CloseRaised(legs: seq<Leg>, i: nat, k: nat, d: int, id: Text)
    requires i < |legs| && Closes(legs[i], id)
    ensures LastOpening(legs, k, id) ==>
              RealizedOf(Raised(legs, i, d)) - RealizedOf(legs)
              == if legs[k].side == T.BUY then d * legs[k].qty else 0 - d * legs[k].qty
    ensures NeverOpened(legs, id) ==> RealizedOf(Raised(legs, i, d)) == RealizedOf(legs)
  {
    SameClose(legs[i]);
    RaisedDifference(legs, i, d);
    if LastOpening(legs, k, id) {
      LastIs(legs, k, id);
      GainRaised(legs[k], legs[i], d);
    }
    if NeverOpened(legs, id) { NeverIs(legs, id); }
  }
}
