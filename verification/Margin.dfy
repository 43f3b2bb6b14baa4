/** What one accepted submission does to the accounts: funds are locked, traded away, and released, and
    what stays locked is what rests. */
module Margin {
  import opened Types
  import opened PriceTime
  import opened Risk
  import opened Ledger
  import opened Exposure
  import opened Exchange

  // ----- Locking and unlocking --------------------------------------------------------------------

  lemma WithSame(a: Account, s: nat)
    requires |a.assetAvailable| == |a.assetLocked| == NUM_SYMBOLS && s < NUM_SYMBOLS
    ensures With(a, a.usdAvailable, a.usdLocked, s, a.assetAvailable[s], a.assetLocked[s]) == a
  {
    assert a.assetAvailable[s := a.assetAvailable[s]] == a.assetAvailable;
    assert a.assetLocked[s := a.assetLocked[s]] == a.assetLocked;
  }

  // Moving funds between available and locked conserves every total.
  lemma MoveConserves(accounts: Accounts, u: nat, b: Account)
    requires u in accounts
    requires Usd(b) == Usd(accounts[u]) && forall s :: Asset(b, s) == Asset(accounts[u], s)
    ensures TotalUsd(accounts[u := b]) == TotalUsd(accounts)
    ensures forall s :: TotalAsset(accounts[u := b], s) == TotalAsset(accounts, s)
  {
    SumUpdate(accounts, Usd, u, b);
    forall s ensures TotalAsset(accounts[u := b], s) == TotalAsset(accounts, s) {
      SumUpdate(accounts, AssetOf(s), u, b);
    }
  }

  // A deposit of a listed symbol adds to the free balances of that one account, which starts empty; any
  // other deposit is dropped whole.
  lemma DepositEffect(accounts: Accounts, u: nat, usd: nat, sym: nat, qty: nat)
    requires AccountsOk(accounts)
    ensures var r := Deposited(accounts, u, usd, sym, qty);
            if sym >= 3 then r == accounts
            else
              && r.Keys == accounts.Keys + {u}
              && (forall v :: v in accounts && v != u ==> r[v] == accounts[v])
              && r[u].usdAvailable == usd + (if u in accounts then accounts[u].usdAvailable else 0)
              && r[u].usdLocked == (if u in accounts then accounts[u].usdLocked else 0)
              && forall s :: 0 <= s < 3 ==>
                   && r[u].assetAvailable[s] ==
                        (if s == sym then qty else 0) + (if u in accounts then accounts[u].assetAvailable[s] else 0)
                   && r[u].assetLocked[s] == if u in accounts then accounts[u].assetLocked[s] else 0
  {
  }

  // What an order needs to be let in: a quantity, a listed symbol, an account, and the funds. A buy needs a
  // price, and a value of at most 64 bits.
  predicate Affordable(accounts: Accounts, o: Order)
    requires AccountsOk(accounts)
  {
    && o.qty > 0 && o.symbolId < 3 && o.userId in accounts
    && if o.side == 0 then
         0 < o.price * o.qty <= 0xFFFF_FFFF_FFFF_FFFF && o.price * o.qty <= accounts[o.userId].usdAvailable
       else
         o.qty <= accounts[o.userId].assetAvailable[o.symbolId]
  }

  lemma ZeroValue(price: nat, qty: nat)
    requires qty > 0
    ensures price == 0 <==> price * qty == 0
  {
  }

  // When funds can be locked, and why not if they cannot: exactly one reason applies.
  lemma LockAnswers(accounts: Accounts, o: Order)
    requires AccountsOk(accounts) && o.Kind() != Cancel
    ensures var r := Lock(accounts, o).1;
            && (r.Ok? <==> Affordable(accounts, o))
            && (r == Err(InvalidOrder) <==>
                  || o.qty == 0 || o.symbolId >= 3
                  || (o.userId in accounts && o.side == 0
                      && (o.price == 0 || o.price * o.qty > 0xFFFF_FFFF_FFFF_FFFF)))
            && (r == Err(Unauthorized) <==> o.qty > 0 && o.symbolId < 3 && o.userId !in accounts)
            && (r == Err(InsufficientFunds) <==>
                  && o.qty > 0 && o.symbolId < 3 && o.userId in accounts
                  && if o.side == 0 then
                       && o.price > 0 && o.price * o.qty <= 0xFFFF_FFFF_FFFF_FFFF
                       && accounts[o.userId].usdAvailable < o.price * o.qty
                     else accounts[o.userId].assetAvailable[o.symbolId] < o.qty)
  {
    hide With;
    if o.qty > 0 { ZeroValue(o.price, o.qty); }
  }

  function LockedBy(a: Account, o: Order): Account
    requires |a.assetAvailable| == |a.assetLocked| == NUM_SYMBOLS && o.symbolId < NUM_SYMBOLS
    requires if o.side == 0 then o.price * o.qty <= a.usdAvailable else o.qty <= a.assetAvailable[o.symbolId]
  {
    var s := o.symbolId;
    if o.side == 0 then
      With(a, a.usdAvailable - o.price * o.qty, a.usdLocked + o.price * o.qty, s, a.assetAvailable[s], a.assetLocked[s])
    else
      With(a, a.usdAvailable, a.usdLocked, s, a.assetAvailable[s] - o.qty, a.assetLocked[s] + o.qty)
  }

  // A lock that succeeds moves exactly the order's margin.
  lemma LockEffect(accounts: Accounts, o: Order)
    requires AccountsOk(accounts) && o.Kind() != Cancel && Lock(accounts, o).1.Ok?
    ensures o.userId in accounts && o.symbolId < NUM_SYMBOLS && o.qty > 0
    ensures o.side == 0 ==> o.price > 0 && o.price * o.qty <= U64_MAX
    ensures if o.side == 0 then o.price * o.qty <= accounts[o.userId].usdAvailable
            else o.qty <= accounts[o.userId].assetAvailable[o.symbolId]
    ensures var locked := Lock(accounts, o).0;
            && locked == accounts[o.userId := LockedBy(accounts[o.userId], o)]
            && TotalUsd(locked) == TotalUsd(accounts) && forall s :: TotalAsset(locked, s) == TotalAsset(accounts, s)
  {
    MoveConserves(accounts, o.userId, LockedBy(accounts[o.userId], o));
  }

  function UnlockedBy(a: Account, isBuy: bool, sym: nat, price: nat, qty: nat): Account
    requires |a.assetAvailable| == |a.assetLocked| == NUM_SYMBOLS && sym < NUM_SYMBOLS
    requires if isBuy then price * qty <= a.usdLocked else qty <= a.assetLocked[sym]
  {
    if isBuy then
      With(a, a.usdAvailable + price * qty, a.usdLocked - price * qty, sym, a.assetAvailable[sym], a.assetLocked[sym])
    else
      With(a, a.usdAvailable, a.usdLocked, sym, a.assetAvailable[sym] + qty, a.assetLocked[sym] - qty)
  }

  // An unlock of no more than is locked moves exactly that.
  lemma UnlockEffect(accounts: Accounts, u: nat, sym: nat, isBuy: bool, price: nat, qty: nat)
    requires AccountsOk(accounts) && u in accounts && sym < NUM_SYMBOLS
    requires if isBuy then price * qty <= accounts[u].usdLocked && price * qty <= U64_MAX
             else qty <= accounts[u].assetLocked[sym]
    ensures var r := Unlock(accounts, u, sym, isBuy, price, qty);
            && r == accounts[u := UnlockedBy(accounts[u], isBuy, sym, price, qty)]
            && TotalUsd(r) == TotalUsd(accounts) && forall s :: TotalAsset(r, s) == TotalAsset(accounts, s)
  {
    if qty == 0 {
      WithSame(accounts[u], sym);
      assert accounts[u := accounts[u]] == accounts;
    }
    MoveConserves(accounts, u, UnlockedBy(accounts[u], isBuy, sym, price, qty));
  }

  // ----- The trades of one submission -------------------------------------------------------------

  // The trades of a sweep by order o, whose makers were accepted: bids have a value of at most 64 bits.
  ghost predicate TradesOk(ts: seq<Trade>, o: Order, accounts: Accounts) {
    && o.symbolId < NUM_SYMBOLS && o.side < 2 && o.userId in accounts
    && (o.side == 0 ==> o.price * o.qty <= U64_MAX)
    && forall t :: t in ts ==> TradeOk(t, o, accounts)
  }

  ghost predicate TradeOk(t: Trade, o: Order, accounts: Accounts) {
    && t.symbolId == o.symbolId && t.makerUserId in accounts && t.makerUserId != o.userId
    && t.qty <= o.qty
    && t.buyerId == (if o.side == 0 then o.userId else t.makerUserId)
    && t.sellerId == (if o.side == 0 then t.makerUserId else o.userId)
    && (if o.side == 0 then t.price <= o.price else t.price * t.qty <= U64_MAX)
  }

  lemma MulMono(a: nat, b: nat, c: nat, d: nat)
    requires a <= b && c <= d
    ensures a * c <= b * d
  {
    assert a * c <= b * c;
    assert b * c <= b * d;
  }

  // The exact amounts: nothing saturates.
  lemma TradeAmounts(t: Trade, o: Order, accounts: Accounts)
    requires TradeOk(t, o, accounts) && o.side < 2 && (o.side == 0 ==> o.price * o.qty <= U64_MAX)
    ensures Cost(t) == t.price * t.qty
    ensures LockedFor(t, o.price) == if o.side == 0 then o.price * t.qty else t.price * t.qty
    ensures Cost(t) <= LockedFor(t, o.price)
  {
    if o.side == 0 {
      MulMono(t.price, o.price, t.qty, o.qty);
      MulMono(o.price, o.price, t.qty, o.qty);
      MulMono(t.price, o.price, t.qty, t.qty);
    }
  }

  function PriceTimes(p: nat): Trade -> nat { (t: Trade) => p * t.qty }

  lemma {:induction false} OverTimes(ts: seq<Trade>, p: nat)
    ensures Over(ts, PriceTimes(p)) == p * Over(ts, QtyOf())
  {
    if ts != [] { OverTimes(ts[..|ts| - 1], p); }
  }

  function Zero(): Trade -> nat { (t: Trade) => 0 }

  lemma {:induction false} OverZero(ts: seq<Trade>)
    ensures Over(ts, Zero()) == 0
  {
    if ts != [] { OverZero(ts[..|ts| - 1]); }
  }

  // What a taker buy takes: the taker's USD at its own price, and each maker's assets.
  lemma BuyDues(ts: seq<Trade>, o: Order, accounts: Accounts, u: nat)
    requires TradesOk(ts, o, accounts) && o.side == 0
    ensures UsdDue(ts, u, o.price) == if u == o.userId then o.price * Traded(ts) else 0
    ensures AssetDue(ts, u) == Over(ts, MakerQtyOf(u))
  {
    forall i | 0 <= i < |ts|
      ensures UsdDueOf(u, o.price)(ts[i]) == (if u == o.userId then PriceTimes(o.price) else Zero())(ts[i])
           && AssetDueOf(u)(ts[i]) == MakerQtyOf(u)(ts[i])
    {
      assert TradeOk(ts[i], o, accounts);
      TradeAmounts(ts[i], o, accounts);
    }
    OverSame(ts, UsdDueOf(u, o.price), if u == o.userId then PriceTimes(o.price) else Zero());
    OverSame(ts, AssetDueOf(u), MakerQtyOf(u));
    OverTimes(ts, o.price);
    OverZero(ts);
    TradedIs(ts);
  }

  // What a taker sell takes: each maker's USD at the trade price, and the taker's assets.
  lemma SellDues(ts: seq<Trade>, o: Order, accounts: Accounts, u: nat)
    requires TradesOk(ts, o, accounts) && o.side == 1
    ensures UsdDue(ts, u, o.price) == Over(ts, MakerUsdOf(u))
    ensures AssetDue(ts, u) == if u == o.userId then Traded(ts) else 0
  {
    forall i | 0 <= i < |ts|
      ensures UsdDueOf(u, o.price)(ts[i]) == MakerUsdOf(u)(ts[i])
           && AssetDueOf(u)(ts[i]) == (if u == o.userId then QtyOf() else Zero())(ts[i])
    {
      assert TradeOk(ts[i], o, accounts);
      TradeAmounts(ts[i], o, accounts);
    }
    OverSame(ts, UsdDueOf(u, o.price), MakerUsdOf(u));
    OverSame(ts, AssetDueOf(u), if u == o.userId then QtyOf() else Zero());
    OverZero(ts);
    TradedIs(ts);
  }

  lemma TradesFair(ts: seq<Trade>, o: Order, accounts: Accounts)
    requires TradesOk(ts, o, accounts)
    ensures Fair(accounts, ts, o.symbolId, o.price)
  {
    forall i | 0 <= i < |ts| ensures FairTrade(accounts, ts[i], o.symbolId, o.price) {
      assert TradeOk(ts[i], o, accounts);
      TradeAmounts(ts[i], o, accounts);
    }
  }

  // What makers must have locked for the trades.
  ghost predicate MakersCovered(accounts: Accounts, ts: seq<Trade>, o: Order)
    requires AccountsOk(accounts) && o.symbolId < NUM_SYMBOLS
  {
    forall u {:trigger accounts[u]} :: u in accounts ==>
      if o.side == 0 then Over(ts, MakerQtyOf(u)) <= accounts[u].assetLocked[o.symbolId]
      else Over(ts, MakerUsdOf(u)) <= accounts[u].usdLocked
  }

  // Of these, the assets of sellers.
  ghost predicate SellersCovered(accounts: Accounts, ts: seq<Trade>, o: Order)
    requires AccountsOk(accounts) && o.symbolId < NUM_SYMBOLS
  {
    o.side == 0 ==> forall u {:trigger accounts[u]} :: u in accounts ==>
      Over(ts, MakerQtyOf(u)) <= accounts[u].assetLocked[o.symbolId]
  }

  // ----- From lock to release ---------------------------------------------------------------------

  // What stays locked for the taker after a submission: a resting remainder, or nothing.
  function Kept(o: Order, report: ExecutionReport): nat {
    if o.Kind() == Limit && !report.stpTriggered then report.remainingQty else 0
  }

  // The price improvement of a buyer, and what the market refund counts a second time.
  function Improvement(ts: seq<Trade>, price: nat): int { price * Traded(ts) - Over(ts, CostOf()) }

  function DoubleRefund(o: Order, report: ExecutionReport, ts: seq<Trade>): int {
    if o.Kind() == Market && o.side == 0 && !report.stpTriggered then Improvement(ts, o.price) else 0
  }

  // A locked submission and its trades. What buyers among the makers have locked is left open.
  ghost predicate Submission(accounts: Accounts, o: Order, left: nat, ts: seq<Trade>) {
    && AccountsOk(accounts) && o.Kind() != Cancel && o.Kind() != OrderType.Deposit && Lock(accounts, o).1.Ok?
    && TradesOk(ts, o, accounts) && SellersCovered(accounts, ts, o)
    && Traded(ts) + left == o.qty
  }

  lemma SameKeysOk(ts: seq<Trade>, o: Order, a: Accounts, b: Accounts)
    requires TradesOk(ts, o, a) && a.Keys == b.Keys
    ensures TradesOk(ts, o, b)
  {
    forall t | t in ts ensures TradeOk(t, o, b) { assert TradeOk(t, o, a); }
  }

  // Once the taker's funds are locked, every account has locked the assets the trades take from it, and
  // the USD if the makers have.
  lemma LockCovers(accounts: Accounts, o: Order, left: nat, ts: seq<Trade>)
    requires Submission(accounts, o, left, ts)
    ensures var locked := Lock(accounts, o).0;
            && o.symbolId < NUM_SYMBOLS && locked.Keys == accounts.Keys
            && Fair(locked, ts, o.symbolId, o.price) && AssetsCovered(locked, ts, o.symbolId)
            && (MakersCovered(accounts, ts, o) ==> Covered(locked, ts, o.symbolId, o.price))
  {
    hide UsdDue, AssetDue, Over, Traded;
    LockEffect(accounts, o);
    var locked := Lock(accounts, o).0;
    SameKeysOk(ts, o, accounts, locked);
    TradesFair(ts, o, locked);
    MulMono(o.price, o.price, Traded(ts), o.qty);
    forall u | u in locked
      ensures AssetDue(ts, u) <= locked[u].assetLocked[o.symbolId]
      ensures MakersCovered(accounts, ts, o) ==> UsdDue(ts, u, o.price) <= locked[u].usdLocked
    {
      if o.side == 0 { BuyDues(ts, o, accounts, u); } else { SellDues(ts, o, accounts, u); }
      assert accounts[u] == accounts[u];
    }
  }

  // The locked balances once all trades are settled: the taker still holds its remainder.
  lemma SettledLocks(accounts: Accounts, o: Order, left: nat, ts: seq<Trade>, u: nat)
    requires Submission(accounts, o, left, ts) && u in accounts
    ensures var r := SettleAll(Lock(accounts, o).0, ts, o.price);
            && r.Keys == accounts.Keys && AccountsOk(r)
            && r[u].usdLocked ==
                 (if o.side == 0 then accounts[u].usdLocked + (if u == o.userId then o.price * left else 0)
                                  else SatSub(accounts[u].usdLocked, Over(ts, MakerUsdOf(u))))
            && r[u].assetLocked == accounts[u].assetLocked[o.symbolId :=
                 if o.side == 0 then SatSub(accounts[u].assetLocked[o.symbolId], Over(ts, MakerQtyOf(u)))
                 else accounts[u].assetLocked[o.symbolId] + (if u == o.userId then left else 0)]
  {
    hide UsdDue, UsdGain, AssetGain, AssetDue, Over, Traded, Fair, SettleAll, Lock, With;
    LockCovers(accounts, o, left, ts);
    LockedBalances(accounts, o, u);
    var locked := Lock(accounts, o).0;
    SettleAllIs(locked, ts, o.symbolId, o.price);
    SettledBalances(locked[u], ts, o.symbolId, o.price);
    assert o.price * o.qty == o.price * Traded(ts) + o.price * left;
    if o.side == 0 { BuyDues(ts, o, accounts, u); } else { SellDues(ts, o, accounts, u); }
  }

  lemma LockedBalances(accounts: Accounts, o: Order, u: nat)
    requires AccountsOk(accounts) && o.Kind() != Cancel && Lock(accounts, o).1.Ok? && u in accounts && o.side < 2
    ensures var r := Lock(accounts, o).0;
            var s := o.symbolId;
            && r.Keys == accounts.Keys && AccountsOk(r) && s < NUM_SYMBOLS
            && r[u].usdLocked == accounts[u].usdLocked + (if o.side == 0 && u == o.userId then o.price * o.qty else 0)
            && r[u].assetLocked ==
                 accounts[u].assetLocked[s := accounts[u].assetLocked[s]
                                              + if o.side == 1 && u == o.userId then o.qty else 0]
  {
    LockEffect(accounts, o);
    WithSame(accounts[u], o.symbolId);
  }

  lemma SettledBalances(a: Account, ts: seq<Trade>, sym: nat, price: nat)
    requires |a.assetAvailable| == |a.assetLocked| == NUM_SYMBOLS && sym < NUM_SYMBOLS
    ensures var b := Settled(a, ts, sym, price);
            && b.usdLocked == SatSub(a.usdLocked, UsdDue(ts, a.userId, price))
            && b.assetLocked == a.assetLocked[sym := SatSub(a.assetLocked[sym], AssetDue(ts, a.userId))]
  {
  }

  lemma SettledTotals(accounts: Accounts, o: Order, left: nat, ts: seq<Trade>)
    requires Submission(accounts, o, left, ts)
    ensures var r := SettleAll(Lock(accounts, o).0, ts, o.price);
            && TotalUsd(r) >= TotalUsd(accounts) && (forall s :: TotalAsset(r, s) == TotalAsset(accounts, s))
            && (MakersCovered(accounts, ts, o) ==> TotalUsd(r) == TotalUsd(accounts))
  {
    hide Fair, Covered, AssetsCovered, MakersCovered, SettleAll;
    LockCovers(accounts, o, left, ts);
    LockEffect(accounts, o);
    SettleLosesNothing(Lock(accounts, o).0, ts, o.symbolId, o.price);
    if MakersCovered(accounts, ts, o) { SettleConserves(Lock(accounts, o).0, ts, o.symbolId, o.price); }
  }

  // ----- The refund of a market order -------------------------------------------------------------

  lemma {:induction false} CostBound(ts: seq<Trade>, o: Order, accounts: Accounts)
    requires TradesOk(ts, o, accounts) && o.side == 0
    ensures Over(ts, SatCostOf()) == Over(ts, CostOf()) <= o.price * Over(ts, QtyOf())
  {
    forall i | 0 <= i < |ts| ensures SatCostOf()(ts[i]) == CostOf()(ts[i]) <= PriceTimes(o.price)(ts[i]) {
      assert TradeOk(ts[i], o, accounts);
      TradeAmounts(ts[i], o, accounts);
    }
    OverSame(ts, SatCostOf(), CostOf());
    OverTimes(ts, o.price);
    OverMono(ts, CostOf(), PriceTimes(o.price));
  }

  lemma {:induction false} OverMono(ts: seq<Trade>, f: Trade -> nat, g: Trade -> nat)
    requires forall i :: 0 <= i < |ts| ==> f(ts[i]) <= g(ts[i])
    ensures Over(ts, f) <= Over(ts, g)
  {
    if ts != [] { OverMono(ts[..|ts| - 1], f, g); }
  }

  // The refund of a market buy with `left` unfilled, on an account that holds o.price * left for it on
  // top of `base`: it releases the improvement a second time, out of the base.
  lemma {:induction false} BuyRefund(accounts: Accounts, o: Order, left: nat, ts: seq<Trade>, base: nat)
    requires AccountsOk(accounts) && TradesOk(ts, o, accounts) && o.side == 0
    requires Traded(ts) + left == o.qty && accounts[o.userId].usdLocked == base + o.price * left
    ensures var i := Improvement(ts, o.price);
            var r := Refund(accounts, o.userId, o.symbolId, true, o.price, o.qty, Over(ts, QtyOf()),
              Over(ts, SatCostOf()));
            && i >= 0 && r.Keys == accounts.Keys
            && (forall u :: u in accounts && u != o.userId ==> r[u] == accounts[u])
            && r[o.userId].usdLocked == SatSub(base, i) && r[o.userId].assetLocked == accounts[o.userId].assetLocked
            && TotalUsd(r) == TotalUsd(accounts) + SatSub(i, base)
            && forall s :: TotalAsset(r, s) == TotalAsset(accounts, s)
  {
    hide Over, Traded, Sum;
    CostBound(ts, o, accounts);
    TradedIs(ts);
    var a := accounts[o.userId];
    var i := Improvement(ts, o.price);
    var surplus := o.price * left + i;
    assert o.price * o.qty == o.price * Traded(ts) + o.price * left;
    var b := With(a, a.usdAvailable + surplus, SatSub(a.usdLocked, surplus), o.symbolId, a.assetAvailable[o.symbolId],
      a.assetLocked[o.symbolId]);
    assert Refund(accounts, o.userId, o.symbolId, true, o.price, o.qty, Over(ts, QtyOf()), Over(ts, SatCostOf())) ==
           accounts[o.userId := b];
    SumUpdate(accounts, Usd, o.userId, b);
    forall s ensures TotalAsset(accounts[o.userId := b], s) == TotalAsset(accounts, s) {
      SumUpdate(accounts, AssetOf(s), o.userId, b);
    }
  }

  // The refund of a market sell releases exactly the unfilled quantity.
  lemma SellRefund(accounts: Accounts, o: Order, left: nat, ts: seq<Trade>)
    requires AccountsOk(accounts) && TradesOk(ts, o, accounts) && o.side == 1
    requires Traded(ts) + left == o.qty && left <= accounts[o.userId].assetLocked[o.symbolId]
    ensures Refund(accounts, o.userId, o.symbolId, false, o.price, o.qty, Over(ts, QtyOf()), Over(ts, SatCostOf()))
         == accounts[o.userId := UnlockedBy(accounts[o.userId], false, o.symbolId, o.price, left)]
  {
    hide Over, Traded;
    TradedIs(ts);
  }

  // ----- The whole submission ---------------------------------------------------------------------

  // The locked balances of a user after a submission that the engine accepted.
  ghost predicate Balances(before: Account, after: Account, o: Order, report: ExecutionReport, ts: seq<Trade>, u: nat)
    requires |before.assetLocked| == NUM_SYMBOLS && o.symbolId < NUM_SYMBOLS
  {
    var s, kept := o.symbolId, if u == o.userId then Kept(o, report) else 0;
    if o.side == 0 then
      && after.usdLocked ==
           (if u == o.userId then SatSub(before.usdLocked, Max0(DoubleRefund(o, report, ts))) else before.usdLocked)
               + o.price * kept
      && after.assetLocked == before.assetLocked[s := SatSub(before.assetLocked[s], Over(ts, MakerQtyOf(u)))]
    else
      && after.usdLocked == SatSub(before.usdLocked, Over(ts, MakerUsdOf(u)))
      && after.assetLocked == before.assetLocked[s := before.assetLocked[s] + kept]
  }

  function Max0(i: int): nat { if i < 0 then 0 else i }

  // What was locked for an order, and how it ends: traded, resting, or released. The only exception is
  // the market buy, whose price improvement is released twice.
  lemma AfterMatchIs(accounts: Accounts, o: Order, report: ExecutionReport, ts: seq<Trade>)
    requires Submission(accounts, o, report.remainingQty, ts)
    ensures var r := AfterMatch(Lock(accounts, o).0, o, report, ts);
            && r.Keys == accounts.Keys
            && (forall u {:trigger r[u]} :: u in accounts ==> Balances(accounts[u], r[u], o, report, ts, u))
            && (forall s :: TotalAsset(r, s) == TotalAsset(accounts, s))
            && TotalUsd(r) >= TotalUsd(accounts)
            && (MakersCovered(accounts, ts, o) ==>
                  TotalUsd(r) == TotalUsd(accounts)
                    + SatSub(Max0(DoubleRefund(o, report, ts)), accounts[o.userId].usdLocked))
  {
    hide Over, Traded, SettleAll, Lock, TradesOk, MakersCovered, SellersCovered, Unlock, Refund, TotalUsd, TotalAsset;
    var left := report.remainingQty;
    var locked := Lock(accounts, o).0;
    LockEffect(accounts, o);
    SettledTotals(accounts, o, left, ts);
    SettledLocks(accounts, o, left, ts, o.userId);
    var settled := SettleAll(locked, ts, o.price);
    var r := AfterMatch(locked, o, report, ts);
    assert ReleaseOf(settled, r, o, report, ts, accounts[o.userId].usdLocked) by {
      ReleaseIs(accounts, settled, o, report, ts);
    }
    forall u | u in accounts ensures Balances(accounts[u], r[u], o, report, ts, u) {
      SettledLocks(accounts, o, left, ts, u);
    }
  }

  // The last move of a submission touches the taker alone.
  ghost predicate ReleaseOf(settled: Accounts, r: Accounts, o: Order, report: ExecutionReport, ts: seq<Trade>,
                            base: nat)
  {
    && r.Keys == settled.Keys && o.userId in settled
    && (forall u {:trigger r[u]} :: u in settled && u != o.userId ==> r[u] == settled[u])
    && |settled[o.userId].assetLocked| == NUM_SYMBOLS && o.symbolId < NUM_SYMBOLS
    && (if o.side == 0 then
          && r[o.userId].usdLocked == SatSub(base, Max0(DoubleRefund(o, report, ts))) + o.price * Kept(o, report)
          && r[o.userId].assetLocked == settled[o.userId].assetLocked
        else
          && r[o.userId].usdLocked == settled[o.userId].usdLocked
          && r[o.userId].assetLocked == settled[o.userId].assetLocked[o.symbolId :=
               SatSub(settled[o.userId].assetLocked[o.symbolId], SatSub(report.remainingQty, Kept(o, report)))])
    && TotalUsd(r) == TotalUsd(settled) + SatSub(Max0(DoubleRefund(o, report, ts)), base)
    && forall s :: TotalAsset(r, s) == TotalAsset(settled, s)
  }

  lemma ReleaseIs(accounts: Accounts, settled: Accounts, o: Order, report: ExecutionReport, ts: seq<Trade>)
    requires Submission(accounts, o, report.remainingQty, ts)
    requires settled == SettleAll(Lock(accounts, o).0, ts, o.price)
    ensures ReleaseOf(settled, AfterMatch(Lock(accounts, o).0, o, report, ts), o, report, ts,
            accounts[o.userId].usdLocked)
  {
    hide Over, Traded, SettleAll, Unlock, Refund, SellersCovered, TotalUsd, TotalAsset;
    var left := report.remainingQty;
    SettledLocks(accounts, o, left, ts, o.userId);
    LockEffect(accounts, o);
    SameKeysOk(ts, o, accounts, settled);
    MulMono(o.price, o.price, left, o.qty);
    MulMono(o.price, o.price, 0, left);
    if report.stpTriggered && left > 0 {
      UnlockEffect(settled, o.userId, o.symbolId, o.side == 0, o.price, left);
    } else if o.Kind() == Market && !report.stpTriggered {
      if o.side == 0 {
        BuyRefund(settled, o, left, ts, accounts[o.userId].usdLocked);
      } else {
        SellRefund(settled, o, left, ts);
        UnlockEffect(settled, o.userId, o.symbolId, false, o.price, left);
      }
    } else {
      assert settled[o.userId].assetLocked[o.symbolId := settled[o.userId].assetLocked[o.symbolId]] ==
             settled[o.userId].assetLocked;
    }
  }
}
