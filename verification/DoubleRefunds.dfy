/** The one command that breaks the accounting, seen from outside: a market buy that meets a cheaper
    ask first and is not stopped by an order of its own. */
module DoubleRefunds {
  import opened Types
  import opened Matcher
  import opened PriceTime
  import opened BookSafety
  import opened Risk
  import opened Ledger
  import opened Exposure
  import opened Exchange
  import opened Margin
  import opened BookExposure
  import opened Accounting

  // The first order the submission trades with is priced below its own price.
  predicate MeetsCheaper(o: Order, q: seq<Resting>) {
    Eligible(o, q) > 0 && q[0].order.price < o.price
  }

  ghost predicate RefundsTwice(s: State, o: Order)
    requires StateOk(s)
  {
    && o.Kind() == Market && o.side == 0 && Lock(s.accounts, o).1.Ok? && o.symbolId < NUM_SYMBOLS
    && var asks := Flat(s.books[o.symbolId].asks);
       MeetsCheaper(o, asks) && !MeetsOwn(o, asks)
  }

  lemma AsksRise(levels: seq<Level>)
    requires SideOk(levels, true)
    ensures forall r :: r in Flat(levels) ==> Flat(levels)[0].order.price <= r.order.price
  {
    if levels != [] {
      BestFirst(levels, true);
      FlatOk(levels, true);
      var q := Flat(levels);
      assert q[0] == levels[0].orders[0];
    }
  }

  lemma {:induction false} OverStrict(ts: seq<Trade>, f: Trade -> nat, g: Trade -> nat)
    requires forall i :: 0 <= i < |ts| ==> f(ts[i]) <= g(ts[i])
    ensures Over(ts, f) <= Over(ts, g)
    ensures Over(ts, f) < Over(ts, g) <==> exists i :: 0 <= i < |ts| && f(ts[i]) < g(ts[i])
  {
    if ts != [] {
      var p, t := ts[..|ts| - 1], ts[|ts| - 1];
      OverStrict(p, f, g);
      if i :| 0 <= i < |ts| && f(ts[i]) < g(ts[i]) {
        assert i < |p| ==> p[i] == ts[i];
      }
      if i :| 0 <= i < |p| && f(p[i]) < g(p[i]) {
        assert p[i] == ts[i];
      }
    }
  }

  lemma CheaperCosts(t: Trade, price: nat)
    requires t.price <= price && t.qty > 0
    ensures CostOf()(t) <= PriceTimes(price)(t)
    ensures CostOf()(t) < PriceTimes(price)(t) <==> t.price < price
  {
    assert price * t.qty - t.price * t.qty == (price - t.price) * t.qty;
    if t.price < price { assert (price - t.price) * t.qty > 0; }
  }

  lemma ImprovementSign(ts: seq<Trade>, price: nat)
    requires forall i :: 0 <= i < |ts| ==> ts[i].price <= price && ts[i].qty > 0
    ensures price * Over(ts, QtyOf()) - Over(ts, CostOf()) > 0 <==> exists i :: 0 <= i < |ts| && ts[i].price < price
  {
    forall i | 0 <= i < |ts|
      ensures CostOf()(ts[i]) <= PriceTimes(price)(ts[i])
      ensures CostOf()(ts[i]) < PriceTimes(price)(ts[i]) <==> ts[i].price < price
    {
      CheaperCosts(ts[i], price);
    }
    OverTimes(ts, price);
    OverStrict(ts, CostOf(), PriceTimes(price));
  }

  // How a market buy trades: the trades, whether it stops, and what it improves.
  lemma BuySweep(b: Book, i: nat, accounts: Accounts, o: Order, clientId: nat)
    requires Ready(b, i, accounts, o) && o.side == 0 && o.Kind() == Market
    ensures var s := Swept(b, o, clientId);
            var q := Flat(b.asks);
            && (s.stp <==> MeetsOwn(o, q))
            && (Improvement(s.trades, o.price) > 0 <==> MeetsCheaper(o, q))
  {
    hide MatchSide, Flat, NotCrossed, DistinctIds, ClientsLive, SideOk, Over, Drain, Volume, Traded, Accepted;
    var q := Flat(b.asks);
    var s := Swept(b, o, clientId);
    SweepIsWaterfall(o, o.qty, clientId, b.asks, b.clients, b.tradeSeq, true);
    FlatOk(b.asks, true);
    AsksRise(b.asks);
    TradedIs(s.trades);
    var n := Eligible(o, q);
    forall k | 0 <= k < |s.trades|
      ensures s.trades[k].price == q[k].order.price && q[0].order.price <= q[k].order.price <= o.price
      ensures s.trades[k].qty > 0
    {
      assert k < n && Volume(q[..k]) < o.qty;
      assert q[k] in q && q[k].order.price <= o.price by { assert Crosses(o, q[k].order.price); }
      assert q[0].order.price <= q[k].order.price;
      assert s.trades[k] == MakeTrade(o, clientId, q[k], Min(q[k].order.qty, o.qty - Volume(q[..k])), b.tradeSeq + k);
    }
    ImprovementSign(s.trades, o.price);
    if n > 0 && q[0].order.price < o.price {
      assert s.trades != [] by { VolumeNone(q); }
      assert s.trades[0].price < o.price;
    }
  }

  lemma SameCheaper(o: Order, id: nat, q: seq<Resting>)
    ensures MeetsCheaper(o.(id := id), q) <==> MeetsCheaper(o, q)
  {
    SameEligible(o, id, q);
  }

  // A surplus arises exactly from such a market buy.
  lemma {:induction false} SurplusArises(s: State, o: Order, clientId: nat)
    requires SysOk(s) && Command(s, o)
    ensures Surplus(s, o, clientId) > 0 <==> RefundsTwice(s, o)
  {
    hide Wf, Flat, BookOk, Over, MatchSide, Lock;
    hide UsdExposure, MeetsCheaper, MeetsOwn, Improvement, TotalUsd, TotalAsset;
    if o.Kind() == Market && o.side == 0 && Lock(s.accounts, o).1.Ok? {
      StampedFacts(s, o, clientId);
      var p := Stamped(s, o);
      var b := s.books[o.symbolId];
      BuySweep(b, o.symbolId, s.accounts, p, clientId);
      SameEligible(o, p.id, Flat(b.asks));
      SameCheaper(o, p.id, Flat(b.asks));
    } else if o.Kind() != Cancel && Lock(s.accounts, o).1.Ok? {
      StampedFacts(s, o, clientId);
      if Out(s, o, clientId).result.Ok? {
        ZeroRefund(Stamped(s, o), Out(s, o, clientId).result.value, Out(s, o, clientId).trades);
      }
    }
  }

  // Such a buy rests nothing, so its owner's exposure stays what it was.
  lemma {:induction false} SurplusKeepsExposure(s: State, o: Order, clientId: nat)
    requires SysOk(s) && LocksMatch(s) && Command(s, o) && Surplus(s, o, clientId) > 0
    ensures var t := LiveStep(s, o, clientId).0;
            StateOk(t) && UsdExposure(t.books, o.userId) == OwnLocked(s, o)
  {
    hide Wf, Flat, Value, Amount, Over, MatchSide, Submit, Process;
    hide Lock, BookOk, TotalUsd, TotalAsset, LiveStep, AfterMatch, RefundsTwice;
    LiveStepAccounts(s, o, clientId);
    StampedFacts(s, o, clientId);
    LiveIs(s, o, clientId);
    var i, p, out := o.symbolId, Stamped(s, o), Out(s, o, clientId);
    SubmitExposure(s.books[i], i, s.accounts, p, clientId, o.userId);
    ZeroRefund(p, out.result.value, out.trades);
    ExposureUpdate(s.books, i, out.book, o.userId);
    assert AccountMatches(s, o.userId) by { assert s.accounts[o.userId] == s.accounts[o.userId]; }
  }

  // The accounting holds across a command if and only if the command does not refund twice: locks equal
  // exposure and USD is conserved. Assets are conserved by every command.
  lemma {:induction false} AccountingHoldsIff(s: State, o: Order, clientId: nat)
    requires SysOk(s) && LocksMatch(s) && Command(s, o)
    ensures var t := LiveStep(s, o, clientId).0;
            && SysOk(t)
            && (LocksMatch(t) && TotalUsd(t.accounts) == TotalUsd(s.accounts) <==> !RefundsTwice(s, o))
            && forall a :: TotalAsset(t.accounts, a) == TotalAsset(s.accounts, a)
  {
    hide BookOk, LocksMatch, LiveStep, UsdExposure, Surplus, RefundsTwice, TotalUsd, TotalAsset, OwnLocked;
    LiveStepAccounts(s, o, clientId);
    StepIsClean(s, o, clientId);
    SurplusArises(s, o, clientId);
    if Surplus(s, o, clientId) > 0 { SurplusKeepsExposure(s, o, clientId); }
  }
}
