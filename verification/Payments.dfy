/** Who pays whom: what an accepted submission does to the free balances of its owner and of every maker, in
    the prices and quantities of its trades. */
module Payments {
  import opened Types
  import opened Matcher
  import opened PriceTime
  import opened Risk
  import opened Ledger
  import opened Exposure
  import opened Exchange
  import opened Margin
  import opened Accounting
  import opened Runs
  import opened Solvency

  // ----- What trades give -------------------------------------------------------------------------

  lemma {:induction false} OverDifference(ts: seq<Trade>, f: Trade -> nat, g: Trade -> nat, d: Trade -> nat)
    requires forall i :: 0 <= i < |ts| ==> f(ts[i]) == g(ts[i]) + d(ts[i])
    ensures Over(ts, f) == Over(ts, g) + Over(ts, d)
  {
    if ts != [] { OverDifference(ts[..|ts| - 1], f, g, d); }
  }

  // A taker buy gives its maker the trade price, and its owner the quantity and what the trades cost less
  // than its own price.
  lemma BuyGains(ts: seq<Trade>, o: Order, accounts: Accounts, u: nat)
    requires TradesOk(ts, o, accounts) && o.side == 0
    ensures u == o.userId ==> UsdGain(ts, u, o.price) + Over(ts, CostOf()) == o.price * Traded(ts)
    ensures u != o.userId ==> UsdGain(ts, u, o.price) == Over(ts, MakerUsdOf(u))
    ensures AssetGain(ts, u) == if u == o.userId then Traded(ts) else 0
  {
    forall i | 0 <= i < |ts|
      ensures u == o.userId ==> PriceTimes(o.price)(ts[i]) == CostOf()(ts[i]) + UsdGainOf(u, o.price)(ts[i])
      ensures u != o.userId ==> UsdGainOf(u, o.price)(ts[i]) == MakerUsdOf(u)(ts[i])
      ensures AssetGainOf(u)(ts[i]) == (if u == o.userId then QtyOf() else Zero())(ts[i])
    {
      assert TradeOk(ts[i], o, accounts);
      TradeAmounts(ts[i], o, accounts);
    }
    if u == o.userId {
      OverDifference(ts, PriceTimes(o.price), CostOf(), UsdGainOf(u, o.price));
    } else {
      OverSame(ts, UsdGainOf(u, o.price), MakerUsdOf(u));
    }
    OverSame(ts, AssetGainOf(u), if u == o.userId then QtyOf() else Zero());
    OverTimes(ts, o.price);
    OverZero(ts);
    TradedIs(ts);
  }

  // A taker sell gives its owner what the trades cost, and each maker the quantity.
  lemma SellGains(ts: seq<Trade>, o: Order, accounts: Accounts, u: nat)
    requires TradesOk(ts, o, accounts) && o.side == 1
    ensures UsdGain(ts, u, o.price) == if u == o.userId then Over(ts, CostOf()) else 0
    ensures AssetGain(ts, u) == Over(ts, MakerQtyOf(u))
    ensures u == o.userId ==> AssetGain(ts, u) == 0
  {
    forall i | 0 <= i < |ts|
      ensures UsdGainOf(u, o.price)(ts[i]) == (if u == o.userId then CostOf() else Zero())(ts[i])
      ensures AssetGainOf(u)(ts[i]) == MakerQtyOf(u)(ts[i])
      ensures u == o.userId ==> AssetGainOf(u)(ts[i]) == Zero()(ts[i])
    {
      assert TradeOk(ts[i], o, accounts);
      TradeAmounts(ts[i], o, accounts);
    }
    OverSame(ts, UsdGainOf(u, o.price), if u == o.userId then CostOf() else Zero());
    OverSame(ts, AssetGainOf(u), MakerQtyOf(u));
    if u == o.userId { OverSame(ts, AssetGainOf(u), Zero()); }
    OverZero(ts);
  }

  // ----- One submission ---------------------------------------------------------------------------

  // The free balances of user u before and after: kept is what comes to rest, again what is refunded twice.
  ghost predicate Paid(a: Account, b: Account, o: Order, ts: seq<Trade>, kept: nat, again: nat, u: nat)
    requires |a.assetAvailable| == NUM_SYMBOLS && o.symbolId < NUM_SYMBOLS
  {
    var s, cost := o.symbolId, Over(ts, CostOf());
    if u == o.userId then
      if o.side == 0 then
        && b.usdAvailable + cost + o.price * kept == a.usdAvailable + again
        && b.assetAvailable == a.assetAvailable[s := a.assetAvailable[s] + Traded(ts)]
      else
        && b.usdAvailable == a.usdAvailable + cost
        && Traded(ts) + kept <= a.assetAvailable[s]
        && b.assetAvailable == a.assetAvailable[s := a.assetAvailable[s] - Traded(ts) - kept]
    else if o.side == 0 then
      b.usdAvailable == a.usdAvailable + Over(ts, MakerUsdOf(u)) && b.assetAvailable == a.assetAvailable
    else
      && b.usdAvailable == a.usdAvailable
      && b.assetAvailable == a.assetAvailable[s := a.assetAvailable[s] + Over(ts, MakerQtyOf(u))]
  }

  lemma LockPays(accounts: Accounts, o: Order, u: nat)
    requires AccountsOk(accounts) && o.Kind() != Cancel && Lock(accounts, o).1.Ok? && u in accounts && o.side < 2
    ensures var r := Lock(accounts, o).0;
            var s := o.symbolId;
            && u in r && s < NUM_SYMBOLS
            && r[u].usdAvailable + (if o.side == 0 && u == o.userId then o.price * o.qty else 0) ==
               accounts[u].usdAvailable
            && (o.side == 1 && u == o.userId ==> o.qty <= accounts[u].assetAvailable[s])
            && r[u].assetAvailable ==
                 accounts[u].assetAvailable[s := accounts[u].assetAvailable[s]
                                                 - if o.side == 1 && u == o.userId then o.qty else 0]
  {
    LockEffect(accounts, o);
    WithSame(accounts[u], o.symbolId);
  }

  lemma SettledFree(a: Account, ts: seq<Trade>, sym: nat, price: nat)
    requires |a.assetAvailable| == |a.assetLocked| == NUM_SYMBOLS && sym < NUM_SYMBOLS
    ensures var b := Settled(a, ts, sym, price);
            && b.usdAvailable == a.usdAvailable + UsdGain(ts, a.userId, price)
            && b.assetAvailable == a.assetAvailable[sym := a.assetAvailable[sym] + AssetGain(ts, a.userId)]
  {
  }

  // After settlement, as if the whole remainder were kept and nothing refunded.
  lemma SettledPays(accounts: Accounts, o: Order, left: nat, ts: seq<Trade>, u: nat)
    requires Submission(accounts, o, left, ts) && u in accounts
    ensures var r := SettleAll(Lock(accounts, o).0, ts, o.price);
            u in r && AccountsOk(r) && o.symbolId < NUM_SYMBOLS && Paid(accounts[u], r[u], o, ts, left, 0, u)
  {
    hide UsdDue, AssetDue, UsdGain, AssetGain, Over, Traded, Fair, SettleAll, Lock, SellersCovered, AssetsCovered;
    hide Settled, MakersCovered, Covered, TradeOk;
    LockCovers(accounts, o, left, ts);
    LockPays(accounts, o, u);
    var locked := Lock(accounts, o).0;
    SettleAllIs(locked, ts, o.symbolId, o.price);
    SettledFree(locked[u], ts, o.symbolId, o.price);
    assert o.price * o.qty == o.price * Traded(ts) + o.price * left;
    if o.side == 0 { BuyGains(ts, o, accounts, u); } else { SellGains(ts, o, accounts, u); }
    SameEntry(accounts[u].assetAvailable, o.symbolId);
  }

  // The last move frees what is not kept, and for a market buy the improvement once more.
  lemma ReleasePays(settled: Accounts, o: Order, report: ExecutionReport, ts: seq<Trade>, a: Account, u: nat)
    requires AccountsOk(settled) && TradesOk(ts, o, settled) && Traded(ts) + report.remainingQty == o.qty
    requires (o.Kind() == Limit || o.Kind() == Market) && u in settled && |a.assetAvailable| == NUM_SYMBOLS
    requires Paid(a, settled[u], o, ts, report.remainingQty, 0, u)
    ensures var released := if report.stpTriggered && report.remainingQty > 0
                              then UnlockOrder(settled, o, report.remainingQty) else settled;
            var r := if o.Kind() == Market && !report.stpTriggered then
                       Refund(released, o.userId, o.symbolId, !o.IsSell(), o.price, o.qty, Over(ts, QtyOf()),
                              Over(ts, SatCostOf()))
                     else released;
            u in r && Paid(a, r[u], o, ts, Kept(o, report), Max0(DoubleRefund(o, report, ts)), u)
  {
    hide Over, Traded;
    var left := report.remainingQty;
    MulMono(o.price, o.price, left, o.qty);
    assert o.price * o.qty == o.price * Traded(ts) + o.price * left;
    assert o.price * 0 == 0;
    TradedIs(ts);
    if o.side == 0 { CostBound(ts, o, settled); }
  }

  // What an accepted submission pays and is paid, for every account.
  lemma SubmissionPays(accounts: Accounts, o: Order, report: ExecutionReport, ts: seq<Trade>, u: nat)
    requires Submission(accounts, o, report.remainingQty, ts) && u in accounts
    ensures var r := AfterMatch(Lock(accounts, o).0, o, report, ts);
            && u in r && o.symbolId < NUM_SYMBOLS
            && Paid(accounts[u], r[u], o, ts, Kept(o, report), Max0(DoubleRefund(o, report, ts)), u)
  {
    hide Over, Traded, SettleAll, Lock, SellersCovered, UnlockOrder, Refund, DoubleRefund, Kept, TradeOk, Paid;
    SettledPays(accounts, o, report.remainingQty, ts, u);
    var settled := SettleAll(Lock(accounts, o).0, ts, o.price);
    SettleKeys(Lock(accounts, o).0, ts, o.price);
    LockEffect(accounts, o);
    SameKeysOk(ts, o, accounts, settled);
    ReleasePays(settled, o, report, ts, accounts[u], u);
  }

  // So does every command of a run that reaches the book.
  lemma {:induction false} RunPays(es: seq<Event>, o: Order, clientId: nat, u: nat)
    requires Admitted(es) && Sent(Run(es), o) && u in Run(es).accounts && o.symbolId < NUM_SYMBOLS
    requires Out(Run(es), o, clientId).result.Ok?
    ensures var s, t := Run(es), LiveStep(Run(es), o, clientId).0;
            var p, out := Stamped(s, o), Out(s, o, clientId);
            && StateOk(t) && u in t.accounts && p == o.(id := p.id)
            && Paid(s.accounts[u], t.accounts[u], p, out.trades, Kept(p, out.result.value),
                    Max0(DoubleRefund(p, out.result.value, out.trades)), u)
  {
    hide BookOk, Process, Lock, Submission, AfterMatch, LiveStep, Solvent, DoubleRefund, Paid, Kept, Run;
    RunIsSolvent(es);
    var s := Run(es);
    StampedFacts(s, o, clientId);
    LiveIs(s, o, clientId);
    SellersHold(s, o, clientId);
    SubmissionPays(s.accounts, Stamped(s, o), Out(s, o, clientId).result.value, Out(s, o, clientId).trades, u);
  }
}
