/** Realised profit and loss: each closing leg, whose client order id is its open's with "-C"
    behind, is paired with that open. Prices and quantities are in units of 0.0001. */
module Pnl {
  import opened Texts
  import opened PendingActions
  import opened Funds
  import T = Trades

  datatype Leg = Leg(coid: Option<Text>, side: T.Side, price: int, qty: int)

  predicate HasId(l: Leg) {
    l.coid.Some? && l.coid.value != []
  }

  predicate IsClose(l: Leg) {
    HasId(l) && EndsWith(l.coid.value, CLOSE_SUFFIX)
  }

  predicate IsOpen(l: Leg, id: Text) {
    HasId(l) && l.coid.value == id && !EndsWith(id, CLOSE_SUFFIX)
  }

  /** `coid.slice(0, -2)` */
  function OpenId(l: Leg): Text
    requires IsClose(l)
  {
    l.coid.value[..|l.coid.value| - 2]
  }

  function Gain(open: Leg, close: Leg): int {
    (close.price - open.price) * open.qty * if open.side == T.BUY then 1 else -1
  }

  // ----- The declarative sum -----

  /** The last leg that opens `id`. */
  function OpenOf(legs: seq<Leg>, id: Text): Option<Leg> {
    if legs == [] then None
    else
      var n := |legs| - 1;
      if IsOpen(legs[n], id) then Some(legs[n]) else OpenOf(legs[..n], id)
  }

  function GainOf(legs: seq<Leg>, l: Leg): int {
    if !IsClose(l) then 0
    else
      var open := OpenOf(legs, OpenId(l));
      if open.None? then 0 else Gain(open.value, l)
  }

  /** The gains of `some`, paired within `legs`, added up. */
  function GainsOf(legs: seq<Leg>, some: seq<Leg>): int {
    if some == [] then 0
    else GainsOf(legs, some[..|some| - 1]) + GainOf(legs, some[|some| - 1])
  }

  function RealizedOf(legs: seq<Leg>): int {
    GainsOf(legs, legs)
  }

  // ----- The two loops -----

  method Realized(legs: seq<Leg>) returns (rawPnl: int)
    ensures rawPnl == RealizedOf(legs)
  {
    var opens: map<Text, Leg> := map[];
    for i := 0 to |legs|
      invariant forall id :: id in opens <==> OpenOf(legs[..i], id).Some?
      invariant forall id | id in opens :: OpenOf(legs[..i], id) == Some(opens[id])
    {
      assert legs[..i + 1][..i] == legs[..i];
      var l := legs[i];
      if HasId(l) && !EndsWith(l.coid.value, CLOSE_SUFFIX) {
        opens := opens[l.coid.value := l];
      }
    }
    assert legs[..|legs|] == legs;
    rawPnl := 0;
    for i := 0 to |legs|
      invariant rawPnl == GainsOf(legs, legs[..i])
    {
      assert legs[..i + 1][..i] == legs[..i];
      var l := legs[i];
      if !HasId(l) || !EndsWith(l.coid.value, CLOSE_SUFFIX) {
        continue;
      }
      if OpenId(l) !in opens {
        continue;
      }
      var open := opens[OpenId(l)];
      var dir := if open.side == T.BUY then 1 else -1;
      rawPnl := rawPnl + (l.price - open.price) * open.qty * dir;
    }
  }

  // ----- The order of the rows does not matter -----

  predicate DistinctOpens(legs: seq<Leg>) {
    forall i, j | 0 <= i < j < |legs| && HasId(legs[j]) :: !IsOpen(legs[i], legs[j].coid.value)
  }

  lemma {:induction false} OpenFound(legs: seq<Leg>, id: Text)
    ensures OpenOf(legs, id).Some? ==> OpenOf(legs, id).value in legs && IsOpen(OpenOf(legs, id).value, id)
    ensures OpenOf(legs, id).None? ==> forall l | l in legs :: !IsOpen(l, id)
  {
    if legs != [] {
      OpenFound(legs[..|legs| - 1], id);
      assert legs == legs[..|legs| - 1] + [legs[|legs| - 1]];
    }
  }

  lemma OnlyOpen(legs: seq<Leg>, a: Leg, b: Leg, id: Text)
    requires DistinctOpens(legs) && a in legs && b in legs && IsOpen(a, id) && IsOpen(b, id)
    ensures a == b
  {
  }

  /** With distinct ids, which leg opens an id does not depend on the order. */
  lemma OpensAgree(legs: seq<Leg>, other: seq<Leg>, id: Text)
    requires DistinctOpens(legs) && forall l :: l in legs <==> l in other
    ensures OpenOf(legs, id) == OpenOf(other, id)
  {
    OpenFound(legs, id);
    OpenFound(other, id);
    if OpenOf(legs, id).Some? && OpenOf(other, id).Some? {
      OnlyOpen(legs, OpenOf(legs, id).value, OpenOf(other, id).value, id);
    }
  }

  lemma {:induction false} GainsAgree(legs: seq<Leg>, other: seq<Leg>, some: seq<Leg>)
    requires DistinctOpens(legs) && forall l :: l in legs <==> l in other
    ensures GainsOf(legs, some) == GainsOf(other, some)
  {
    if some != [] {
      GainsAgree(legs, other, some[..|some| - 1]);
      var l := some[|some| - 1];
      if IsClose(l) {
        OpensAgree(legs, other, OpenId(l));
      }
    }
  }

  lemma {:induction false} GainsRemove(legs: seq<Leg>, some: seq<Leg>, k: nat)
    requires k < |some|
    ensures GainsOf(legs, some) == GainsOf(legs, some[..k] + some[k + 1..]) + GainOf(legs, some[k])
  {
    var n := |some| - 1;
    if k == n {
      assert some[..k] + some[k + 1..] == some[..n];
    } else {
      var rest := some[..k] + some[k + 1..];
      GainsRemove(legs, some[..n], k);
      assert rest[..|rest| - 1] == some[..n][..k] + some[..n][k + 1..];
    }
  }

  lemma {:induction false} GainsPermute(legs: seq<Leg>, some: seq<Leg>, other: seq<Leg>)
    requires multiset(some) == multiset(other)
    ensures GainsOf(legs, some) == GainsOf(legs, other)
    decreases |some|
  {
    if some == [] {
      assert |multiset(other)| == 0;
    } else {
      var n := |some| - 1;
      var l := some[n];
      assert l in multiset(some) && l in other;
      var k :| 0 <= k < |other| && other[k] == l;
      var rest := other[..k] + other[k + 1..];
      Removed(other, k);
      Removed(some, n);
      assert some[..n] + some[n + 1..] == some[..n];
      GainsPermute(legs, some[..n], rest);
      GainsRemove(legs, other, k);
    }
  }

  lemma Removed(some: seq<Leg>, k: nat)
    requires k < |some|
    ensures multiset(some[..k] + some[k + 1..]) == multiset(some) - multiset{some[k]}
  {
    assert some == some[..k] + [some[k]] + some[k + 1..];
  }

  /** Any order of the rows gives the same result when no two legs open the same id. */
  lemma OrderIrrelevant(legs: seq<Leg>, other: seq<Leg>)
    requires multiset(legs) == multiset(other) && DistinctOpens(legs)
    ensures RealizedOf(legs) == RealizedOf(other)
  {
    forall l ensures l in legs <==> l in other {
      assert l in legs <==> l in multiset(legs);
      assert l in other <==> l in multiset(other);
    }
    GainsPermute(legs, legs, other);
    GainsAgree(legs, other, other);
  }

  // ----- Where it does -----

  /** What the closes of `id` gain when all of them are paired with `open`. */
  function ClosesGain(some: seq<Leg>, id: Text, open: Leg): int {
    if some == [] then 0
    else
      var n := |some| - 1;
      ClosesGain(some[..n], id, open)
      + if IsClose(some[n]) && OpenId(some[n]) == id then Gain(open, some[n]) else 0
  }

  lemma {:induction false} OpenOfConcat(s: seq<Leg>, t: seq<Leg>, id: Text)
    ensures OpenOf(s + t, id) == if OpenOf(t, id).Some? then OpenOf(t, id) else OpenOf(s, id)
  {
    if t == [] {
      assert s + t == s;
    } else {
      OpenOfConcat(s, t[..|t| - 1], id);
      assert (s + t)[..|s + t| - 1] == s + t[..|t| - 1];
    }
  }

  /** Two legs in a row, between others. */
  function Around(pre: seq<Leg>, x: Leg, y: Leg, post: seq<Leg>): seq<Leg> {
    pre + [x] + [y] + post
  }

  lemma OpenOfAround(pre: seq<Leg>, x: Leg, y: Leg, post: seq<Leg>, id: Text)
    ensures OpenOf(Around(pre, x, y, post), id)
            == if OpenOf(post, id).Some? then OpenOf(post, id)
               else if IsOpen(y, id) then Some(y) else if IsOpen(x, id) then Some(x) else OpenOf(pre, id)
  {
    OpenOfConcat(pre + [x] + [y], post, id);
    OpenOfConcat(pre + [x], [y], id);
    OpenOfConcat(pre, [x], id);
  }

  lemma ExchangedGain(pre: seq<Leg>, x: Leg, y: Leg, post: seq<Leg>, id: Text, l: Leg)
    requires IsOpen(x, id) && IsOpen(y, id)
    ensures GainOf(Around(pre, x, y, post), l) - GainOf(Around(pre, y, x, post), l)
            == if OpenOf(post, id).None? && IsClose(l) && OpenId(l) == id then Gain(y, l) - Gain(x, l) else 0
  {
    if IsClose(l) {
      OpenOfAround(pre, x, y, post, OpenId(l));
      OpenOfAround(pre, y, x, post, OpenId(l));
    }
  }

  lemma {:induction false} ExchangedGains(pre: seq<Leg>, x: Leg, y: Leg, post: seq<Leg>, id: Text, some: seq<Leg>)
    requires IsOpen(x, id) && IsOpen(y, id)
    ensures GainsOf(Around(pre, x, y, post), some) - GainsOf(Around(pre, y, x, post), some)
            == if OpenOf(post, id).None? then ClosesGain(some, id, y) - ClosesGain(some, id, x) else 0
  {
    if some != [] {
      ExchangedGains(pre, x, y, post, id, some[..|some| - 1]);
      ExchangedGain(pre, x, y, post, id, some[|some| - 1]);
    }
  }

  /** Exactly where the order counts: exchanging two neighbours that open the same id changes the
      result if and only if no later leg opens it and its closes gain differently with the one and
      with the other. */
  lemma OrderCounts(pre: seq<Leg>, x: Leg, y: Leg, post: seq<Leg>, id: Text)
    requires IsOpen(x, id) && IsOpen(y, id)
    ensures multiset(Around(pre, x, y, post)) == multiset(Around(pre, y, x, post))
    ensures var legs := Around(pre, x, y, post);
            RealizedOf(legs) != RealizedOf(Around(pre, y, x, post))
            <==> OpenOf(post, id).None? && ClosesGain(legs, id, x) != ClosesGain(legs, id, y)
  {
    var legs, other := Around(pre, x, y, post), Around(pre, y, x, post);
    ExchangedGains(pre, x, y, post, id, legs);
    GainsPermute(other, legs, other);
  }

  // ----- Swapping sides -----

  function Swapped(l: Leg): Leg {
    l.(side := if l.side == T.BUY then T.SELL else T.BUY)
  }

  function AllSwapped(legs: seq<Leg>): (r: seq<Leg>)
    ensures |r| == |legs|
  {
    seq(|legs|, i requires 0 <= i < |legs| => Swapped(legs[i]))
  }

  lemma {:induction false} SwappedOpen(legs: seq<Leg>, id: Text)
    ensures OpenOf(AllSwapped(legs), id)
            == if OpenOf(legs, id).Some? then Some(Swapped(OpenOf(legs, id).value)) else None
  {
    if legs != [] {
      var n := |legs| - 1;
      SwappedOpen(legs[..n], id);
      assert AllSwapped(legs)[..n] == AllSwapped(legs[..n]);
    }
  }

  lemma SwappedGain(open: Leg, close: Leg)
    ensures Gain(Swapped(open), Swapped(close)) == 0 - Gain(open, close)
  {
  }

  lemma {:induction false} SwappedGains(legs: seq<Leg>, some: seq<Leg>)
    ensures GainsOf(AllSwapped(legs), AllSwapped(some)) == 0 - GainsOf(legs, some)
  {
    if some != [] {
      var n := |some| - 1;
      SwappedGains(legs, some[..n]);
      assert AllSwapped(some)[..n] == AllSwapped(some[..n]);
      if IsClose(some[n]) {
        SwappedOpen(legs, OpenId(some[n]));
        if OpenOf(legs, OpenId(some[n])).Some? {
          SwappedGain(OpenOf(legs, OpenId(some[n])).value, some[n]);
        }
      }
    }
  }

  /** Swapping buys and sells everywhere negates the result. */
  lemma SidesSwapped(legs: seq<Leg>)
    ensures RealizedOf(AllSwapped(legs)) == 0 - RealizedOf(legs)
  {
    SwappedGains(legs, legs);
  }
}
