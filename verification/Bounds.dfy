/** While deposits stay below 2^64, so does everything the exchange computes: no settlement saturates,
    no balance and no level total overflows. */
module Bounds {
  import opened Types
  import opened Matcher
  import opened PriceTime
  import opened Risk
  import opened Ledger
  import opened Exposure
  import opened Exchange
  import opened Margin
  import opened Accounting
  import opened Runs
  import opened Solvency
  import opened Wealth

  // ----- Adding up over users ---------------------------------------------------------------------

  function AmountOf(q: seq<Resting>): Account -> nat { (a: Account) => Amount(q, a.userId) }

  function ValueOf(q: seq<Resting>): Account -> nat { (a: Account) => Value(q, a.userId) }

  // Every resting quantity is somebody's, so the users' amounts add up to the volume.
  lemma {:induction false} AmountsAddUp(q: seq<Resting>, accounts: Accounts)
    requires AccountsOk(accounts) && forall r :: r in q ==> r.order.userId in accounts
    ensures Sum(accounts, AmountOf(q)) == Volume(q)
  {
    if q == [] {
      SumNone(accounts, AmountOf(q));
    } else {
      AmountsAddUp(q[1..], accounts);
      SumOnly(accounts, q[0].order.userId, q[0].order.qty);
      SumPlus(accounts, AmountOf(q), Only(q[0].order.userId, q[0].order.qty), AmountOf(q[1..]));
    }
  }

  lemma {:induction false} ValuesExceed(q: seq<Resting>, accounts: Accounts)
    requires AccountsOk(accounts) && forall r :: r in q ==> r.order.userId in accounts && r.order.price > 0
    ensures Volume(q) <= Sum(accounts, ValueOf(q))
  {
    if q == [] {
      SumNone(accounts, ValueOf(q));
    } else {
      var u, v := q[0].order.userId, q[0].order.price * q[0].order.qty;
      ValuesExceed(q[1..], accounts);
      SumOnly(accounts, u, v);
      SumPlus(accounts, ValueOf(q), Only(u, v), ValueOf(q[1..]));
      MulMono(1, q[0].order.price, q[0].order.qty, q[0].order.qty);
    }
  }

  lemma {:induction false} VolumeConcat(a: seq<Resting>, b: seq<Resting>)
    ensures Volume(a + b) == Volume(a) + Volume(b)
  {
    if a == [] {
      assert a + b == b;
    } else {
      assert (a + b)[1..] == a[1..] + b;
      VolumeConcat(a[1..], b);
    }
  }

  lemma {:induction false} LevelVolume(levels: seq<Level>, j: nat)
    requires j < |levels|
    ensures Volume(levels[j].orders) <= Volume(Flat(levels))
  {
    VolumeConcat(levels[0].orders, Flat(levels[1..]));
    if j > 0 { LevelVolume(levels[1..], j - 1); }
  }

  // ----- What is accounted for bounds what rests --------------------------------------------------

  lemma {:induction false} BidsAreWorth(s: State, i: nat)
    requires SysOk(s) && i < NUM_SYMBOLS
    ensures Volume(Flat(s.books[i].bids)) <= TotalExposure(s)
  {
    hide Wf, Flat, Value, Volume;
    assert BookOk(s.books[i], i, s.nextId, s.accounts);
    ValuesExceed(Flat(s.books[i].bids), s.accounts);
    SumMono(s.accounts, ValueOf(Flat(s.books[i].bids)), ExposureOf(s.books));
  }

  lemma {:induction false} AsksAreLocked(s: State, i: nat)
    requires SysOk(s) && AssetsMatch(s) && i < NUM_SYMBOLS
    ensures Volume(Flat(s.books[i].asks)) <= TotalAsset(s.accounts, i)
  {
    hide Wf, Flat, Amount, Volume;
    assert BookOk(s.books[i], i, s.nextId, s.accounts);
    var asks := Flat(s.books[i].asks);
    AmountsAddUp(asks, s.accounts);
    forall u | u in s.accounts ensures AmountOf(asks)(s.accounts[u]) <= AssetOf(i)(s.accounts[u]) {
      assert s.accounts[u].assetLocked[i] == Amount(asks, u);
    }
    SumMono(s.accounts, AmountOf(asks), AssetOf(i));
  }

  ghost predicate FitsIn64(accounts: Accounts) {
    forall u {:trigger accounts[u]} :: u in accounts ==>
      Usd(accounts[u]) <= U64_MAX && forall a :: 0 <= a < NUM_SYMBOLS ==> Asset(accounts[u], a) <= U64_MAX
  }

  lemma BalancesFit(accounts: Accounts)
    requires TotalUsd(accounts) <= U64_MAX && forall a :: 0 <= a < NUM_SYMBOLS ==> TotalAsset(accounts, a) <= U64_MAX
    ensures FitsIn64(accounts)
  {
    forall u | u in accounts
      ensures Usd(accounts[u]) <= U64_MAX && forall a :: 0 <= a < NUM_SYMBOLS ==> Asset(accounts[u], a) <= U64_MAX
    {
      SumBounds(accounts, Usd, u);
      forall a | 0 <= a < NUM_SYMBOLS ensures Asset(accounts[u], a) <= U64_MAX {
        SumBounds(accounts, AssetOf(a), u);
        assert TotalAsset(accounts, a) <= U64_MAX;
      }
    }
  }

  // The quantity of a level: the book's total_qty.
  ghost predicate LevelsFit(levels: seq<Level>) {
    forall j :: 0 <= j < |levels| ==> Volume(levels[j].orders) <= U64_MAX
  }

  // No balance and no level total of any reachable state overflows while deposits, and what was refunded
  // twice, fit in 64 bits.
  lemma RunFitsIn64(es: seq<Event>)
    requires Admitted(es)
    requires UsdIn(es) + RefundedTwice(es) <= U64_MAX
    requires forall a :: 0 <= a < NUM_SYMBOLS ==> AssetIn(es, a) <= U64_MAX
    ensures FitsIn64(Run(es).accounts)
    ensures forall i :: 0 <= i < NUM_SYMBOLS ==> LevelsFit(Run(es).books[i].bids) && LevelsFit(Run(es).books[i].asks)
  {
    hide SysOk, AssetsMatch, Run, TotalUsd, TotalAsset, TotalFree, TotalExposure, Flat, Volume;
    RunKeepsBooks(es);
    RunAssets(es);
    RunWealth(es);
    WealthIff(es);
    var s := Run(es);
    BalancesFit(s.accounts);
    forall i | 0 <= i < NUM_SYMBOLS ensures LevelsFit(s.books[i].bids) && LevelsFit(s.books[i].asks) {
      BidsAreWorth(s, i);
      AsksAreLocked(s, i);
      assert AssetIn(es, i) <= U64_MAX;
      SideFits(s.books[i].bids);
      SideFits(s.books[i].asks);
    }
  }

  lemma SideFits(levels: seq<Level>)
    requires Volume(Flat(levels)) <= U64_MAX
    ensures LevelsFit(levels)
  {
    hide Volume, Flat;
    forall j | 0 <= j < |levels| ensures Volume(levels[j].orders) <= U64_MAX { LevelVolume(levels, j); }
  }

  // ----- Inside one settlement --------------------------------------------------------------------

  // What trade k takes is exact and locked when its turn comes, and every balance fits until then.
  ghost predicate Unsaturated(locked: Accounts, ts: seq<Trade>, o: Order, k: nat)
    requires AccountsOk(locked) && k < |ts|
  {
    var t, now := ts[k], SettleAll(locked, ts[..k], o.price);
    && FitsIn64(now) && t.buyerId in now && t.sellerId in now && t.symbolId < NUM_SYMBOLS
    && Cost(t) == t.price * t.qty
    && LockedFor(t, o.price) == (if t.buyerId == t.makerUserId then t.price else o.price) * t.qty
    && Cost(t) <= LockedFor(t, o.price) <= now[t.buyerId].usdLocked && t.qty <= now[t.sellerId].assetLocked[t.symbolId]
  }

  lemma PrefixFair(accounts: Accounts, ts: seq<Trade>, sym: nat, price: nat, k: nat)
    requires AccountsOk(accounts) && sym < NUM_SYMBOLS && k <= |ts|
    requires Fair(accounts, ts, sym, price) && Covered(accounts, ts, sym, price)
    ensures Fair(accounts, ts[..k], sym, price) && Covered(accounts, ts[..k], sym, price)
  {
    assert ts == ts[..k] + ts[k..];
    forall u | u in accounts
      ensures UsdDue(ts[..k], u, price) <= accounts[u].usdLocked && AssetDue(ts[..k], u) <= accounts[u].assetLocked[sym]
    {
      OverConcat(ts[..k], ts[k..], UsdDueOf(u, price));
      OverConcat(ts[..k], ts[k..], AssetDueOf(u));
      assert accounts[u] == accounts[u];
    }
  }

  lemma {:induction false} NextIsLocked(accounts: Accounts, ts: seq<Trade>, sym: nat, price: nat, k: nat)
    requires AccountsOk(accounts) && sym < NUM_SYMBOLS && k < |ts|
    requires Fair(accounts, ts, sym, price) && Covered(accounts, ts, sym, price)
    ensures var t, now := ts[k], SettleAll(accounts, ts[..k], price);
            && now.Keys == accounts.Keys && t.buyerId in now && t.sellerId in now && t.symbolId == sym
            && Cost(t) <= LockedFor(t, price) <= now[t.buyerId].usdLocked && t.qty <= now[t.sellerId].assetLocked[sym]
  {
    hide SettleAll, LockedFor, Cost;
    PrefixFair(accounts, ts, sym, price, k);
    PrefixFair(accounts, ts, sym, price, k + 1);
    SettleAllIs(accounts, ts[..k], sym, price);
    var t := ts[k];
    assert FairTrade(accounts, t, sym, price);
    var p := ts[..k + 1];
    assert p[..|p| - 1] == ts[..k] && p[|p| - 1] == t;
    assert accounts[t.buyerId] == accounts[t.buyerId] && accounts[t.sellerId] == accounts[t.sellerId];
  }

  // No settlement of an accepted submission saturates, and the running totals of the settlement fit.
  lemma {:induction false} NothingSaturates(s: State, o: Order, clientId: nat, k: nat)
    requires Live(s, o) && Out(s, o, clientId).result.Ok? && k <= |Out(s, o, clientId).trades|
    requires TotalUsd(s.accounts) <= U64_MAX
    requires forall a :: 0 <= a < NUM_SYMBOLS ==> TotalAsset(s.accounts, a) <= U64_MAX
    ensures var ts := Out(s, o, clientId).trades;
            var locked := Lock(s.accounts, o).0;
            && (k < |ts| ==> Unsaturated(locked, ts, Stamped(s, o), k))
            && Over(ts[..k], QtyOf()) <= o.qty && Over(ts[..k], SatCostOf()) <= U64_MAX
  {
    hide Wf, BookOk, LocksMatch, Value, Amount, Out, Lock, SettleAll;
    hide Over, Fair, Covered, TradesOk, TotalUsd, TotalAsset, FitsIn64;
    StampedFacts(s, o, clientId);
    SubmissionHolds(s, o, clientId);
    var p, ts := Stamped(s, o), Out(s, o, clientId).trades;
    var locked, sym := Lock(s.accounts, o).0, o.symbolId;
    LockCovers(s.accounts, p, Out(s, o, clientId).result.value.remainingQty, ts);
    LockEffect(s.accounts, o);
    PrefixFair(locked, ts, sym, p.price, k);
    SettleConserves(locked, ts[..k], sym, p.price);
    BalancesFit(SettleAll(locked, ts[..k], p.price));
    if k < |ts| {
      NextIsLocked(locked, ts, sym, p.price, k);
      assert TradeOk(ts[k], p, s.accounts) by { TradeOfTrades(s.accounts, ts, p, k); }
      TradeAmounts(ts[k], p, s.accounts);
    }
    RunningTotals(s.accounts, p, Out(s, o, clientId).result.value.remainingQty, ts, k);
  }

  lemma TradeOfTrades(accounts: Accounts, ts: seq<Trade>, o: Order, k: nat)
    requires TradesOk(ts, o, accounts) && k < |ts|
    ensures TradeOk(ts[k], o, accounts)
  {
  }

  lemma PrefixTotals(ts: seq<Trade>, f: Trade -> nat, k: nat)
    requires k <= |ts|
    ensures Over(ts[..k], f) <= Over(ts, f)
  {
    assert ts == ts[..k] + ts[k..];
    OverConcat(ts[..k], ts[k..], f);
  }

  lemma RunningTotals(accounts: Accounts, o: Order, left: nat, ts: seq<Trade>, k: nat)
    requires Submission(accounts, o, left, ts) && MakersCovered(accounts, ts, o)
    requires k <= |ts| && TotalUsd(accounts) <= U64_MAX
    ensures Over(ts[..k], QtyOf()) <= o.qty && Over(ts[..k], SatCostOf()) <= U64_MAX
  {
    hide Over, Traded, Lock, SettleAll, TotalUsd, TotalAsset, Fair, Covered, MakersCovered, TradeOk;
    PrefixTotals(ts, QtyOf(), k);
    PrefixTotals(ts, SatCostOf(), k);
    TradedIs(ts);
    if o.side == 0 {
      CostBound(ts, o, accounts);
      MulMono(o.price, o.price, Traded(ts), o.qty);
    } else {
      var locked := Lock(accounts, o).0;
      LockCovers(accounts, o, left, ts);
      LockEffect(accounts, o);
      SettleAllIs(locked, ts, o.symbolId, o.price);
      SettledTotals(accounts, o, left, ts);
      SellerGains(ts, o, accounts);
      var after := SettleAll(locked, ts, o.price);
      SumBounds(after, Usd, o.userId);
      TotalIsSum(after);
    }
  }

  lemma TotalIsSum(accounts: Accounts)
    ensures TotalUsd(accounts) == Sum(accounts, Usd)
  {
  }

  lemma SellerGains(ts: seq<Trade>, o: Order, accounts: Accounts)
    requires TradesOk(ts, o, accounts) && o.side == 1
    ensures UsdGain(ts, o.userId, o.price) == Over(ts, SatCostOf())
  {
    forall i | 0 <= i < |ts| ensures UsdGainOf(o.userId, o.price)(ts[i]) == SatCostOf()(ts[i]) {
      assert TradeOk(ts[i], o, accounts);
    }
    OverSame(ts, UsdGainOf(o.userId, o.price), SatCostOf());
  }

  // In a run without a double refund whose deposits fit, no settlement ever saturates.
  lemma RunNeverSaturates(es: seq<Event>, o: Order, clientId: nat, k: nat)
    requires Admitted(es) && NoDoubleRefund(es)
    requires UsdIn(es) <= U64_MAX && forall a :: 0 <= a < NUM_SYMBOLS ==> AssetIn(es, a) <= U64_MAX
    requires Sent(Run(es), o) && o.symbolId < NUM_SYMBOLS
    requires Out(Run(es), o, clientId).result.Ok? && k <= |Out(Run(es), o, clientId).trades|
    ensures var s := Run(es);
            var ts := Out(s, o, clientId).trades;
            && (k < |ts| ==> Unsaturated(Lock(s.accounts, o).0, ts, Stamped(s, o), k))
            && Over(ts[..k], QtyOf()) <= o.qty && Over(ts[..k], SatCostOf()) <= U64_MAX
  {
    hide SysOk, LocksMatch, Out, Lock, Over, TotalUsd, TotalAsset, Unsaturated, Run;
    RunIsSafe(es);
    forall a | 0 <= a < NUM_SYMBOLS ensures TotalAsset(Run(es).accounts, a) <= U64_MAX {
      assert AssetIn(es, a) <= U64_MAX;
    }
    NothingSaturates(Run(es), o, clientId, k);
  }
}
