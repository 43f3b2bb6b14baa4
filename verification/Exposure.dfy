/** The exposure of resting orders, and how a sweep moves it: what a user's resting orders no longer
    stand for is exactly what the trades took from that user as a maker. */
module Exposure {
  import opened Types
  import opened Matcher
  import opened PriceTime
  import opened Ledger

  // USD behind a user's orders in q, and the quantity in them.
  function Value(q: seq<Resting>, u: nat): nat {
    if q == [] then 0 else (if q[0].order.userId == u then q[0].order.price * q[0].order.qty else 0) + Value(q[1..], u)
  }

  function Amount(q: seq<Resting>, u: nat): nat {
    if q == [] then 0 else (if q[0].order.userId == u then q[0].order.qty else 0) + Amount(q[1..], u)
  }

  lemma {:induction false} ExposureConcat(a: seq<Resting>, b: seq<Resting>, u: nat)
    ensures Value(a + b, u) == Value(a, u) + Value(b, u) && Amount(a + b, u) == Amount(a, u) + Amount(b, u)
  {
    if a == [] {
      assert a + b == b;
    } else {
      assert (a + b)[1..] == a[1..] + b;
      ExposureConcat(a[1..], b, u);
    }
  }

  lemma ExposureOne(r: Resting, u: nat)
    ensures Value([r], u) == if r.order.userId == u then r.order.price * r.order.qty else 0
    ensures Amount([r], u) == if r.order.userId == u then r.order.qty else 0
  {
    assert [r][1..] == [];
    assert Value([], u) == 0 && Amount([], u) == 0;
  }

  lemma ExposureInsert(q: seq<Resting>, k: nat, r: Resting, u: nat)
    requires k <= |q|
    ensures Value(q[..k] + [r] + q[k..], u) == Value(q, u) + Value([r], u)
    ensures Amount(q[..k] + [r] + q[k..], u) == Amount(q, u) + Amount([r], u)
  {
    assert q == q[..k] + q[k..];
    ExposureConcat(q[..k] + [r], q[k..], u);
    ExposureConcat(q[..k], [r], u);
    ExposureConcat(q[..k], q[k..], u);
  }

  lemma ExposureRemove(q: seq<Resting>, k: nat, u: nat)
    requires k < |q|
    ensures Value(q[..k] + q[k + 1..], u) + Value([q[k]], u) == Value(q, u)
    ensures Amount(q[..k] + q[k + 1..], u) + Amount([q[k]], u) == Amount(q, u)
  {
    var t := q[..k] + q[k + 1..];
    assert q == t[..k] + [q[k]] + t[k..];
    ExposureInsert(t, k, q[k], u);
  }

  lemma {:induction false} ExposureNone(q: seq<Resting>, u: nat)
    requires forall r :: r in q ==> r.order.userId != u
    ensures Value(q, u) == 0 && Amount(q, u) == 0
  {
    if q != [] { ExposureNone(q[1..], u); }
  }

  // ----- Trades seen from the maker ---------------------------------------------------------------

  function MakerUsdOf(u: nat): Trade -> nat { (t: Trade) => if t.makerUserId == u then t.price * t.qty else 0 }

  function MakerQtyOf(u: nat): Trade -> nat { (t: Trade) => if t.makerUserId == u then t.qty else 0 }

  function QtyOf(): Trade -> nat { (t: Trade) => t.qty }

  function CostOf(): Trade -> nat { (t: Trade) => t.price * t.qty }

  lemma {:induction false} TradedIs(ts: seq<Trade>)
    ensures Over(ts, QtyOf()) == Traded(ts)
  {
    if ts != [] {
      TradedIs(ts[1..]);
      assert [ts[0]] + ts[1..] == ts;
      OverCons(ts[0], ts[1..], QtyOf());
    }
  }

  // The exposure before a sweep is the exposure after it plus what makers traded away.
  lemma {:induction false} WalkExposure(o: Order, qty: nat, clientId: nat, q: seq<Resting>, tid: nat, u: nat)
    ensures var w := Walk(o, qty, clientId, q, tid);
            && Value(q, u) == Value(w.queue, u) + Over(w.trades, MakerUsdOf(u))
            && Amount(q, u) == Amount(w.queue, u) + Over(w.trades, MakerQtyOf(u))
    decreases |q|
  {
    hide Crosses, Value, Amount, Over;
    var w := Walk(o, qty, clientId, q, tid);
    OverNone(MakerUsdOf(u));
    OverNone(MakerQtyOf(u));
    if qty > 0 && q != [] && Crosses(o, q[0].order.price) && q[0].order.userId != o.userId {
      var fill := Min(qty, q[0].order.qty);
      var t := MakeTrade(o, clientId, q[0], fill, tid);
      var head, left := q[0].order.price, Reduced(q[0], fill);
      assert q == [q[0]] + q[1..];
      ExposureConcat([q[0]], q[1..], u);
      ExposureOne(q[0], u);
      assert head * q[0].order.qty == head * fill + head * (q[0].order.qty - fill);
      if fill == q[0].order.qty {
        WalkExposure(o, qty - fill, clientId, q[1..], tid + 1, u);
        var v := Walk(o, qty - fill, clientId, q[1..], tid + 1);
        OverCons(t, v.trades, MakerUsdOf(u));
        OverCons(t, v.trades, MakerQtyOf(u));
      } else {
        ExposureConcat([left], q[1..], u);
        ExposureOne(left, u);
        assert [t] + [] == [t];
        OverCons(t, [], MakerUsdOf(u));
        OverCons(t, [], MakerQtyOf(u));
      }
    }
  }

  lemma OverNone(f: Trade -> nat)
    ensures Over([], f) == 0
  {
  }

  lemma SweepExposure(o: Order, clientId: nat, levels: seq<Level>, clients: map<ClientKey, nat>, tid: nat, isSell: bool,
                      u: nat)
    requires SideOk(levels, isSell)
    ensures var s := MatchSide(o, o.qty, clientId, levels, clients, tid);
            && Value(Flat(levels), u) == Value(Flat(s.levels), u) + Over(s.trades, MakerUsdOf(u))
            && Amount(Flat(levels), u) == Amount(Flat(s.levels), u) + Over(s.trades, MakerQtyOf(u))
  {
    hide MatchSide, Walk, Flat, Value, Amount, Over;
    FlatOk(levels, isSell);
    SweepIsWalk(o, o.qty, clientId, levels, clients, tid);
    WalkExposure(o, o.qty, clientId, Flat(levels), tid, u);
  }

  // ----- What every trade of a sweep looks like ---------------------------------------------------

  // The maker's side of a trade.
  ghost predicate MadeBy(t: Trade, m: Resting) {
    && m.order.userId == t.makerUserId && m.order.id == t.makerOrderId && m.order.clientOrderId == t.makerClientOrderId
    && m.clientId == t.makerClientId && m.order.side == t.makerSide && m.order.price == t.price && t.qty <= m.order.qty
  }

  ghost predicate TradeOf(t: Trade, o: Order, q: seq<Resting>) {
    && t.takerUserId == o.userId && t.makerUserId != o.userId && t.takerOrderId == o.id
    && t.takerClientOrderId == o.clientOrderId
    && t.symbolId == o.symbolId && t.qty > 0 && t.qty <= o.qty
    && Crosses(o, t.price)
    && t.buyerId == (if o.side == 0 then o.userId else t.makerUserId)
    && t.sellerId == (if o.side == 0 then t.makerUserId else o.userId)
    && exists m :: m in q && MadeBy(t, m)
  }

  // No self-trade, no price outside the bound, no trade beyond either order, and the right two parties.
  lemma SweepTrades(o: Order, clientId: nat, levels: seq<Level>, clients: map<ClientKey, nat>, tid: nat, isSell: bool)
    requires SideOk(levels, isSell)
    ensures forall t :: t in MatchSide(o, o.qty, clientId, levels, clients, tid).trades ==> TradeOf(t, o, Flat(levels))
    ensures var ts := MatchSide(o, o.qty, clientId, levels, clients, tid).trades;
            forall i :: 0 <= i < |ts| ==> ts[i].matchId == tid + i && ts[i].takerClientId == clientId
  {
    hide MatchSide, Drain, Flat, Traded, Volume;
    SweepIsWaterfall(o, o.qty, clientId, levels, clients, tid, isSell);
    FlatOk(levels, isSell);
    var q := Flat(levels);
    var ts := MatchSide(o, o.qty, clientId, levels, clients, tid).trades;
    forall i | 0 <= i < |ts| ensures TradeOf(ts[i], o, q) {
      assert i < Eligible(o, q);
      assert q[i] in q && MadeBy(ts[i], q[i]);
    }
  }
}
