/** What the matcher does, said without its recursion over levels: resting orders are filled in
    price-time order by a waterfall, up to the first order that is out of bounds or one's own. */
module PriceTime {
  import opened Types
  import opened Matcher

  function Volume(q: seq<Resting>): nat {
    if q == [] then 0 else q[0].order.qty + Volume(q[1..])
  }

  lemma VolumeNone(q: seq<Resting>)
    ensures Volume(q[..0]) == 0
  {
  }

  function Traded(ts: seq<Trade>): nat {
    if ts == [] then 0 else ts[0].qty + Traded(ts[1..])
  }

  // How many orders at the front belong to other users and are within the price bound.
  function Eligible(o: Order, q: seq<Resting>): (n: nat)
    ensures n <= |q|
    ensures forall i :: 0 <= i < n ==> q[i].order.userId != o.userId && Crosses(o, q[i].order.price)
    ensures n < |q| ==> q[n].order.userId == o.userId || !Crosses(o, q[n].order.price)
  {
    if q == [] || q[0].order.userId == o.userId || !Crosses(o, q[0].order.price) then 0
    else 1 + Eligible(o, q[1..])
  }

  // The priority order reaches an own order within the price bound before the quantity is used up.
  predicate MeetsOwn(o: Order, q: seq<Resting>) {
    var n := Eligible(o, q);
    n < |q| && q[n].order.userId == o.userId && Crosses(o, q[n].order.price) && Volume(q[..n]) < o.qty
  }

  // Neither depends on the order's own id.
  lemma {:induction false} SameEligible(o: Order, id: nat, q: seq<Resting>)
    ensures var p := o.(id := id);
            Eligible(p, q) == Eligible(o, q) && (MeetsOwn(p, q) <==> MeetsOwn(o, q))
  {
    if q != [] { SameEligible(o, id, q[1..]); }
  }

  // Take `qty` from the front of the queue, oldest order first.
  function Drain(q: seq<Resting>, qty: nat): seq<Resting> {
    if q == [] || qty == 0 then q
    else if q[0].order.qty <= qty then Drain(q[1..], qty - q[0].order.qty)
    else [Reduced(q[0], qty)] + q[1..]
  }

  lemma {:induction false} DrainAll(q: seq<Resting>, qty: nat)
    requires Volume(q) <= qty && forall r :: r in q ==> r.order.qty > 0
    ensures Drain(q, qty) == []
  {
    if q != [] { DrainAll(q[1..], qty - q[0].order.qty); }
  }

  ghost predicate Waterfall(o: Order, qty: nat, clientId: nat, q: seq<Resting>, tid: nat,
                            left: nat, rest: seq<Resting>, trades: seq<Trade>, stp: bool)
  {
    var n := Eligible(o, q);
    && left == qty - Min(qty, Volume(q[..n]))
    && rest == Drain(q[..n], qty) + q[n..]
    && (stp <==> left > 0 && n < |q| && q[n].order.userId == o.userId && Crosses(o, q[n].order.price))
    && |trades| <= n
    && (|trades| < n ==> qty <= Volume(q[..|trades|]))
    && (forall i :: 0 <= i < |trades| ==>
          && Volume(q[..i]) < qty
          && trades[i] == MakeTrade(o, clientId, q[i], Min(q[i].order.qty, qty - Volume(q[..i])), tid + i))
    && Traded(trades) == qty - left
  }

  // ----- One walk over the orders of a side in priority order -------------------------------------

  datatype Strip = Strip(left: nat, queue: seq<Resting>, trades: seq<Trade>, stp: bool)

  function Walk(o: Order, qty: nat, clientId: nat, q: seq<Resting>, tid: nat): Strip
    decreases |q|
  {
    if qty == 0 || q == [] || !Crosses(o, q[0].order.price) then Strip(qty, q, [], false)
    else if q[0].order.userId == o.userId then Strip(qty, q, [], true)
    else
      var fill := Min(qty, q[0].order.qty);
      var trade := MakeTrade(o, clientId, q[0], fill, tid);
      if q[0].order.qty == fill then
        var w := Walk(o, qty - fill, clientId, q[1..], tid + 1);
        w.(trades := [trade] + w.trades)
      else
        Strip(0, [Reduced(q[0], fill)] + q[1..], [trade], false)
  }

  lemma WalkHalts(o: Order, qty: nat, clientId: nat, q: seq<Resting>, tid: nat)
    requires qty == 0 || q == [] || !Crosses(o, q[0].order.price)
    ensures Walk(o, qty, clientId, q, tid) == Strip(qty, q, [], false)
  {
  }

  // The walk over `tail` after a queue that was matched with outcome f.
  function Continued(o: Order, f: Fill, clientId: nat, tail: seq<Resting>, tid: nat): Strip {
    if f.queue == [] then
      var v := Walk(o, f.left, clientId, tail, tid + |f.trades|);
      v.(trades := f.trades + v.trades)
    else
      Strip(f.left, f.queue + tail, f.trades, f.stp)
  }

  lemma ContinuedPrepends(o: Order, f: Fill, clientId: nat, tail: seq<Resting>, tid: nat, trade: Trade)
    ensures Continued(o, f.(trades := [trade] + f.trades), clientId, tail, tid)
         == var w := Continued(o, f, clientId, tail, tid + 1); w.(trades := [trade] + w.trades)
  {
    hide Walk;
    if f.queue == [] {
      var v := Walk(o, f.left, clientId, tail, tid + 1 + |f.trades|);
      assert [trade] + (f.trades + v.trades) == [trade] + f.trades + v.trades;
    }
  }

  // A queue within the price bound is walked to its end, or the walk stops inside it.
  lemma {:induction false} WalkContinues(o: Order, qty: nat, clientId: nat, q: seq<Resting>, tail: seq<Resting>,
                                         clients: map<ClientKey, nat>, tid: nat)
    requires forall r :: r in q ==> Crosses(o, r.order.price)
    ensures Walk(o, qty, clientId, q + tail, tid) ==
            Continued(o, MatchQueue(o, qty, clientId, q, clients, tid), clientId, tail, tid)
    decreases |q|
  {
    hide Crosses, MakeTrade;
    if q == [] {
      hide Walk;
      assert q + tail == tail;
    } else if qty == 0 {
      WalkHalts(o, qty, clientId, q + tail, tid);
    } else if q[0].order.userId != o.userId {
      hide Continued;
      var fill := Min(qty, q[0].order.qty);
      assert (q + tail)[0] == q[0] && (q + tail)[1..] == q[1..] + tail;
      if q[0].order.qty == fill {
        var rest := clients - {KeyOf(q[0])};
        WalkContinues(o, qty - fill, clientId, q[1..], tail, rest, tid + 1);
        ContinuedPrepends(o, MatchQueue(o, qty - fill, clientId, q[1..], rest, tid + 1), clientId, tail, tid,
                          MakeTrade(o, clientId, q[0], fill, tid));
      } else {
        WalkReduces(o, qty, clientId, q, tail, clients, tid);
      }
    }
  }

  lemma WalkReduces(o: Order, qty: nat, clientId: nat, q: seq<Resting>, tail: seq<Resting>,
                    clients: map<ClientKey, nat>, tid: nat)
    requires q != [] && Crosses(o, q[0].order.price) && q[0].order.userId != o.userId && 0 < qty < q[0].order.qty
    ensures Walk(o, qty, clientId, q + tail, tid) ==
            Continued(o, MatchQueue(o, qty, clientId, q, clients, tid), clientId, tail, tid)
  {
    assert (q + tail)[0] == q[0];
    assert [Reduced(q[0], qty)] + (q + tail)[1..] == [Reduced(q[0], qty)] + q[1..] + tail;
  }

  ghost predicate Priced(levels: seq<Level>) {
    forall i :: 0 <= i < |levels| ==>
        levels[i].orders != [] && forall r :: r in levels[i].orders ==> r.order.price == levels[i].price
  }

  // Matching level by level is the single walk over all orders in price-time order.
  lemma {:induction false} SweepIsWalk(o: Order, qty: nat, clientId: nat, levels: seq<Level>,
                                       clients: map<ClientKey, nat>, tid: nat)
    requires Priced(levels)
    ensures var s := MatchSide(o, qty, clientId, levels, clients, tid);
            Walk(o, qty, clientId, Flat(levels), tid) == Strip(s.left, Flat(s.levels), s.trades, s.stp)
    decreases |levels|
  {
    hide Walk, MatchQueue, Crosses, MakeTrade;
    if qty == 0 || levels == [] || !Crosses(o, levels[0].price) {
      if levels != [] { assert Flat(levels)[0] == levels[0].orders[0]; }
      WalkHalts(o, qty, clientId, Flat(levels), tid);
    } else {
      var head := levels[0];
      WalkContinues(o, qty, clientId, head.orders, Flat(levels[1..]), clients, tid);
      var f := MatchQueue(o, qty, clientId, head.orders, clients, tid);
      if f.queue == [] {
        SweepIsWalk(o, f.left, clientId, levels[1..], f.clients, tid + |f.trades|);
      }
    }
  }

  lemma {:induction false} WalkLeft(o: Order, qty: nat, clientId: nat, q: seq<Resting>, tid: nat)
    requires forall r :: r in q ==> r.order.qty > 0
    ensures var n := Eligible(o, q);
            var w := Walk(o, qty, clientId, q, tid);
            && w.left == qty - Min(qty, Volume(q[..n]))
            && Traded(w.trades) == qty - w.left
            && (w.stp <==> w.left > 0 && n < |q| && q[n].order.userId == o.userId && Crosses(o, q[n].order.price))
    decreases |q|
  {
    hide Crosses;
    var n := Eligible(o, q);
    if n > 0 && qty > 0 {
      var fill := Min(qty, q[0].order.qty);
      assert q[..n][1..] == q[1..][..n - 1];
      WalkLeft(o, qty - fill, clientId, q[1..], tid + 1);
      var v := Walk(o, qty - fill, clientId, q[1..], tid + 1);
      var trade := MakeTrade(o, clientId, q[0], fill, tid);
      assert ([trade] + v.trades)[1..] == v.trades && [trade][1..] == [];
    }
  }

  lemma {:induction false} WalkRest(o: Order, qty: nat, clientId: nat, q: seq<Resting>, tid: nat)
    requires forall r :: r in q ==> r.order.qty > 0
    ensures var n := Eligible(o, q);
            Walk(o, qty, clientId, q, tid).queue == Drain(q[..n], qty) + q[n..]
    decreases |q|
  {
    hide Crosses, MakeTrade;
    var n := Eligible(o, q);
    assert q[..n] + q[n..] == q;
    if n > 0 && qty > 0 {
      var fill := Min(qty, q[0].order.qty);
      assert q[..n][1..] == q[1..][..n - 1];
      assert q[1..][n - 1..] == q[n..];
      if fill == q[0].order.qty { WalkRest(o, qty - fill, clientId, q[1..], tid + 1); }
    }
  }

  lemma {:induction false} WalkTrade(o: Order, qty: nat, clientId: nat, q: seq<Resting>, tid: nat, i: nat)
    requires i < |Walk(o, qty, clientId, q, tid).trades|
    ensures i < |q| && Volume(q[..i]) < qty
    ensures Walk(o, qty, clientId, q, tid).trades[i]
         == MakeTrade(o, clientId, q[i], Min(q[i].order.qty, qty - Volume(q[..i])), tid + i)
    decreases i
  {
    hide Crosses, MakeTrade;
    var fill := Min(qty, q[0].order.qty);
    if i > 0 {
      WalkTrade(o, qty - fill, clientId, q[1..], tid + 1, i - 1);
      assert q[..i][1..] == q[1..][..i - 1];
    }
  }

  // The walk goes on as long as there is quantity left and an eligible order.
  lemma {:induction false} WalkTradeCount(o: Order, qty: nat, clientId: nat, q: seq<Resting>, tid: nat)
    ensures var k := |Walk(o, qty, clientId, q, tid).trades|;
            k <= Eligible(o, q) && (k < Eligible(o, q) ==> qty <= Volume(q[..k]))
    decreases |q|
  {
    hide Crosses, MakeTrade;
    if Eligible(o, q) > 0 && qty > 0 {
      var fill := Min(qty, q[0].order.qty);
      WalkTradeCount(o, qty - fill, clientId, q[1..], tid + 1);
      var k := |Walk(o, qty, clientId, q, tid).trades|;
      assert q[..k][1..] == q[1..][..k - 1];
    }
  }

  lemma WalkIsWaterfall(o: Order, qty: nat, clientId: nat, q: seq<Resting>, tid: nat)
    requires forall r :: r in q ==> r.order.qty > 0
    ensures var w := Walk(o, qty, clientId, q, tid);
            Waterfall(o, qty, clientId, q, tid, w.left, w.queue, w.trades, w.stp)
  {
    hide Walk, Drain, Volume, Crosses, MakeTrade;
    WalkLeft(o, qty, clientId, q, tid);
    WalkRest(o, qty, clientId, q, tid);
    WalkTradeCount(o, qty, clientId, q, tid);
    var w := Walk(o, qty, clientId, q, tid);
    forall i | 0 <= i < |w.trades|
      ensures Volume(q[..i]) < qty
           && w.trades[i] == MakeTrade(o, clientId, q[i], Min(q[i].order.qty, qty - Volume(q[..i])), tid + i)
    {
      WalkTrade(o, qty, clientId, q, tid, i);
    }
  }

  lemma {:induction false} FlatOk(levels: seq<Level>, isSell: bool)
    requires SideOk(levels, isSell)
    ensures forall r :: r in Flat(levels) ==> r.order.qty > 0 && r.order.IsSell() == isSell && r.order.Kind() == Limit
    ensures Priced(levels)
  {
    if levels != [] { FlatOk(levels[1..], isSell); }
  }

  // Price-time priority, quantity balance and self-trade prevention of a whole sweep at once.
  lemma SweepIsWaterfall(o: Order, qty: nat, clientId: nat, levels: seq<Level>, clients: map<ClientKey, nat>, tid: nat,
                         isSell: bool)
    requires SideOk(levels, isSell)
    ensures var s := MatchSide(o, qty, clientId, levels, clients, tid);
            Waterfall(o, qty, clientId, Flat(levels), tid, s.left, Flat(s.levels), s.trades, s.stp)
  {
    FlatOk(levels, isSell);
    SweepIsWalk(o, qty, clientId, levels, clients, tid);
    WalkIsWaterfall(o, qty, clientId, Flat(levels), tid);
  }
}
