/** Settlement as bookkeeping: what a sequence of trades takes from and gives to each account, and the
    sums over all accounts that it leaves alone. */
module Ledger {
  import opened Types
  import opened Risk

  // ----- Sums over accounts -----------------------------------------------------------------------

  // A sum over all accounts of one amount per account.
  ghost function Sum(accounts: Accounts, f: Account -> nat): nat {
    if accounts == map[] then 0
    else
      var u :| u in accounts;
      f(accounts[u]) + Sum(accounts - {u}, f)
  }

  lemma {:induction false} SumRemove(accounts: Accounts, f: Account -> nat, u: nat)
    requires u in accounts
    ensures Sum(accounts, f) == f(accounts[u]) + Sum(accounts - {u}, f)
  {
    var v :| v in accounts && Sum(accounts, f) == f(accounts[v]) + Sum(accounts - {v}, f);
    if u != v {
      SumRemove(accounts - {v}, f, u);
      SumRemove(accounts - {u}, f, v);
      assert accounts - {v} - {u} == accounts - {u} - {v};
    }
  }

  lemma SumUpdate(accounts: Accounts, f: Account -> nat, u: nat, a: Account)
    ensures Sum(accounts[u := a], f) + (if u in accounts then f(accounts[u]) else 0) == Sum(accounts, f) + f(a)
  {
    SumRemove(accounts[u := a], f, u);
    assert accounts[u := a] - {u} == accounts - {u};
    if u in accounts { SumRemove(accounts, f, u); } else { assert accounts - {u} == accounts; }
  }

  lemma {:induction false} SumBounds(accounts: Accounts, f: Account -> nat, u: nat)
    requires u in accounts
    ensures f(accounts[u]) <= Sum(accounts, f)
  {
    SumRemove(accounts, f, u);
  }

  lemma {:induction false} SumPlus(accounts: Accounts, f: Account -> nat, g: Account -> nat, h: Account -> nat)
    requires forall u :: u in accounts ==> f(accounts[u]) == g(accounts[u]) + h(accounts[u])
    ensures Sum(accounts, f) == Sum(accounts, g) + Sum(accounts, h)
  {
    if accounts != map[] {
      var u :| u in accounts;
      SumRemove(accounts, f, u);
      SumRemove(accounts, g, u);
      SumRemove(accounts, h, u);
      SumPlus(accounts - {u}, f, g, h);
    }
  }

  lemma {:induction false} SumNone(accounts: Accounts, f: Account -> nat)
    requires forall u :: u in accounts ==> f(accounts[u]) == 0
    ensures Sum(accounts, f) == 0
  {
    if accounts != map[] {
      var u :| u in accounts;
      SumRemove(accounts, f, u);
      SumNone(accounts - {u}, f);
    }
  }

  lemma {:induction false} SumMono(accounts: Accounts, f: Account -> nat, g: Account -> nat)
    requires forall u :: u in accounts ==> f(accounts[u]) <= g(accounts[u])
    ensures Sum(accounts, f) <= Sum(accounts, g)
  {
    if accounts != map[] {
      var u :| u in accounts;
      SumRemove(accounts, f, u);
      SumRemove(accounts, g, u);
      SumMono(accounts - {u}, f, g);
    }
  }

  function Only(u: nat, x: nat): Account -> nat { (a: Account) => if a.userId == u then x else 0 }

  lemma SumOnly(accounts: Accounts, u: nat, x: nat)
    requires AccountsOk(accounts) && u in accounts
    ensures Sum(accounts, Only(u, x)) == x
  {
    SumRemove(accounts, Only(u, x), u);
    SumNone(accounts - {u}, Only(u, x));
  }

  function Usd(a: Account): nat { a.usdAvailable + a.usdLocked }

  function Asset(a: Account, s: nat): nat {
    (if s < |a.assetAvailable| then a.assetAvailable[s] else 0) + (if s < |a.assetLocked| then a.assetLocked[s] else 0)
  }

  // All USD, and all of one asset, that the accounts hold.
  ghost function TotalUsd(accounts: Accounts): nat { Sum(accounts, Usd) }

  function AssetOf(s: nat): Account -> nat { a => Asset(a, s) }

  ghost function TotalAsset(accounts: Accounts, s: nat): nat { Sum(accounts, AssetOf(s)) }

  // ----- What trades take and give ----------------------------------------------------------------

  // A sum over trades of one amount per trade.
  function Over(ts: seq<Trade>, f: Trade -> nat): nat {
    if ts == [] then 0 else Over(ts[..|ts| - 1], f) + f(ts[|ts| - 1])
  }

  lemma {:induction false} OverConcat(a: seq<Trade>, b: seq<Trade>, f: Trade -> nat)
    ensures Over(a + b, f) == Over(a, f) + Over(b, f)
    decreases |b|
  {
    if b == [] {
      assert a + b == a;
    } else {
      assert (a + b)[..|a + b| - 1] == a + b[..|b| - 1];
      OverConcat(a, b[..|b| - 1], f);
    }
  }

  lemma OverCons(t: Trade, ts: seq<Trade>, f: Trade -> nat)
    ensures Over([t] + ts, f) == f(t) + Over(ts, f)
  {
    OverConcat([t], ts, f);
    assert [t][..0] == [];
  }

  lemma {:induction false} OverSame(ts: seq<Trade>, f: Trade -> nat, g: Trade -> nat)
    requires forall i :: 0 <= i < |ts| ==> f(ts[i]) == g(ts[i])
    ensures Over(ts, f) == Over(ts, g)
  {
    if ts != [] { OverSame(ts[..|ts| - 1], f, g); }
  }

  // USD a buyer's lock loses, USD and assets an account gains, and assets a seller's lock loses.
  function UsdDueOf(u: nat, price: nat): Trade -> nat {
    (t: Trade) => if t.buyerId == u then LockedFor(t, price) else 0
  }

  function UsdGainOf(u: nat, price: nat): Trade -> nat {
    (t: Trade) => (if t.buyerId == u then SatSub(LockedFor(t, price), Cost(t)) else 0)
        + (if t.sellerId == u then Cost(t) else 0)
  }

  function AssetGainOf(u: nat): Trade -> nat { (t: Trade) => if t.buyerId == u then t.qty else 0 }

  function AssetDueOf(u: nat): Trade -> nat { (t: Trade) => if t.sellerId == u then t.qty else 0 }

  function UsdDue(ts: seq<Trade>, u: nat, price: nat): nat { Over(ts, UsdDueOf(u, price)) }

  function UsdGain(ts: seq<Trade>, u: nat, price: nat): nat { Over(ts, UsdGainOf(u, price)) }

  function AssetGain(ts: seq<Trade>, u: nat): nat { Over(ts, AssetGainOf(u)) }

  function AssetDue(ts: seq<Trade>, u: nat): nat { Over(ts, AssetDueOf(u)) }

  // A trade between two different accounts at no more than the buyer locked.
  ghost predicate FairTrade(accounts: Accounts, t: Trade, sym: nat, price: nat) {
    && t.symbolId == sym < NUM_SYMBOLS
    && t.buyerId in accounts && t.sellerId in accounts && t.buyerId != t.sellerId
    && Cost(t) <= LockedFor(t, price)
  }

  ghost predicate Fair(accounts: Accounts, ts: seq<Trade>, sym: nat, price: nat) {
    forall i {:trigger ts[i]} :: 0 <= i < |ts| ==> FairTrade(accounts, ts[i], sym, price)
  }

  // Every account has locked what the trades will take from it.
  ghost predicate Covered(accounts: Accounts, ts: seq<Trade>, sym: nat, price: nat)
    requires AccountsOk(accounts) && sym < NUM_SYMBOLS
  {
    forall u {:trigger accounts[u]} :: u in accounts ==>
      UsdDue(ts, u, price) <= accounts[u].usdLocked && AssetDue(ts, u) <= accounts[u].assetLocked[sym]
  }

  // Assets alone.
  ghost predicate AssetsCovered(accounts: Accounts, ts: seq<Trade>, sym: nat)
    requires AccountsOk(accounts) && sym < NUM_SYMBOLS
  {
    forall u {:trigger accounts[u]} :: u in accounts ==> AssetDue(ts, u) <= accounts[u].assetLocked[sym]
  }

  // The account after settlement: it has all gains, and has lost what was due or else all it had locked.
  function Settled(a: Account, ts: seq<Trade>, sym: nat, price: nat): Account
    requires |a.assetAvailable| == |a.assetLocked| == NUM_SYMBOLS && sym < NUM_SYMBOLS
  {
    With(a, a.usdAvailable + UsdGain(ts, a.userId, price), SatSub(a.usdLocked, UsdDue(ts, a.userId, price)),
         sym, a.assetAvailable[sym] + AssetGain(ts, a.userId), SatSub(a.assetLocked[sym], AssetDue(ts, a.userId)))
  }

  lemma PrefixCovered(accounts: Accounts, ts: seq<Trade>, sym: nat, price: nat)
    requires AccountsOk(accounts) && sym < NUM_SYMBOLS && ts != []
    requires Covered(accounts, ts, sym, price) && Fair(accounts, ts, sym, price)
    ensures Covered(accounts, ts[..|ts| - 1], sym, price) && Fair(accounts, ts[..|ts| - 1], sym, price)
  {
  }

  // One more trade on a settled account.
  lemma SettledMore(a: Account, ts: seq<Trade>, sym: nat, price: nat)
    requires |a.assetAvailable| == |a.assetLocked| == NUM_SYMBOLS && sym < NUM_SYMBOLS && ts != []
    requires ts[|ts| - 1].buyerId != ts[|ts| - 1].sellerId && ts[|ts| - 1].symbolId == sym
    ensures var p, t := ts[..|ts| - 1], ts[|ts| - 1];
            Settled(a, ts, sym, price) == SettledOnce(Settled(a, p, sym, price), t, price)
  {
    hide LockedFor, Cost;
  }

  // What one settlement does to one account.
  function SettledOnce(b: Account, t: Trade, price: nat): Account
    requires |b.assetAvailable| == |b.assetLocked| == NUM_SYMBOLS && t.symbolId < NUM_SYMBOLS
  {
    var s := t.symbolId;
    if t.buyerId == b.userId then
      With(b, b.usdAvailable + SatSub(LockedFor(t, price), Cost(t)), SatSub(b.usdLocked, LockedFor(t, price)),
           s, b.assetAvailable[s] + t.qty, b.assetLocked[s])
    else if t.sellerId == b.userId then
      With(b, b.usdAvailable + Cost(t), b.usdLocked, s, b.assetAvailable[s], SatSub(b.assetLocked[s], t.qty))
    else b
  }

  lemma SettleAt(accounts: Accounts, t: Trade, price: nat)
    requires AccountsOk(accounts) && FairTrade(accounts, t, t.symbolId, price)
    ensures Settle(accounts, t, price).Keys == accounts.Keys
    ensures forall u :: u in accounts ==> Settle(accounts, t, price)[u] == SettledOnce(accounts[u], t, price)
  {
    hide LockedFor, Cost, With;
  }

  lemma SettledNone(a: Account, sym: nat, price: nat)
    requires |a.assetAvailable| == |a.assetLocked| == NUM_SYMBOLS && sym < NUM_SYMBOLS
    ensures Settled(a, [], sym, price) == a
  {
    assert a.assetAvailable[sym := a.assetAvailable[sym]] == a.assetAvailable;
    assert a.assetLocked[sym := a.assetLocked[sym]] == a.assetLocked;
  }

  // Settlement trade by trade is one piece of bookkeeping for each account, whatever it has locked.
  lemma {:induction false} SettleAllIs(accounts: Accounts, ts: seq<Trade>, sym: nat, price: nat)
    requires AccountsOk(accounts) && sym < NUM_SYMBOLS && Fair(accounts, ts, sym, price)
    ensures SettleAll(accounts, ts, price).Keys == accounts.Keys
    ensures forall u :: u in accounts ==> SettleAll(accounts, ts, price)[u] == Settled(accounts[u], ts, sym, price)
    decreases |ts|
  {
    hide Settled, SettledOnce, Settle, LockedFor, Cost, UsdDue, AssetDue;
    if ts == [] {
      forall u | u in accounts ensures accounts[u] == Settled(accounts[u], ts, sym, price) {
        SettledNone(accounts[u], sym, price);
      }
    } else {
      var p, t := ts[..|ts| - 1], ts[|ts| - 1];
      SettleAllIs(accounts, p, sym, price);
      assert FairTrade(accounts, t, sym, price);
      SettleAt(SettleAll(accounts, p, price), t, price);
      forall u | u in accounts ensures SettleAll(accounts, ts, price)[u] == Settled(accounts[u], ts, sym, price) {
        SettledMore(accounts[u], ts, sym, price);
      }
    }
  }

  // ----- Conservation -----------------------------------------------------------------------------

  // The only thing a settlement can add to a total is what a lock falls short of.
  lemma TradeTotals(accounts: Accounts, t: Trade, price: nat)
    requires AccountsOk(accounts) && t.symbolId < NUM_SYMBOLS && FairTrade(accounts, t, t.symbolId, price)
    ensures var r := Settle(accounts, t, price);
            && TotalUsd(r) == TotalUsd(accounts) + SatSub(LockedFor(t, price), accounts[t.buyerId].usdLocked)
            && forall s: nat :: TotalAsset(r, s) == TotalAsset(accounts, s)
                                  + if s == t.symbolId then SatSub(t.qty, accounts[t.sellerId].assetLocked[s]) else 0
  {
    hide LockedFor, Cost;
    var mid, r := SettleBuyer(accounts, t, price), Settle(accounts, t, price);
    SumUpdate(accounts, Usd, t.buyerId, mid[t.buyerId]);
    SumUpdate(mid, Usd, t.sellerId, r[t.sellerId]);
    forall s: nat
      ensures TotalAsset(r, s) == TotalAsset(accounts, s)
                + if s == t.symbolId then SatSub(t.qty, accounts[t.sellerId].assetLocked[s]) else 0
    {
      SumUpdate(accounts, AssetOf(s), t.buyerId, mid[t.buyerId]);
      SumUpdate(mid, AssetOf(s), t.sellerId, r[t.sellerId]);
    }
  }

  lemma {:induction false} SettleConserves(accounts: Accounts, ts: seq<Trade>, sym: nat, price: nat)
    requires AccountsOk(accounts) && sym < NUM_SYMBOLS
    requires Fair(accounts, ts, sym, price) && Covered(accounts, ts, sym, price)
    ensures TotalUsd(SettleAll(accounts, ts, price)) == TotalUsd(accounts)
    ensures forall s :: TotalAsset(SettleAll(accounts, ts, price), s) == TotalAsset(accounts, s)
    decreases |ts|
  {
    hide LockedFor, Cost, TotalUsd, TotalAsset;
    if ts != [] {
      var p, t := ts[..|ts| - 1], ts[|ts| - 1];
      PrefixCovered(accounts, ts, sym, price);
      SettleConserves(accounts, p, sym, price);
      SettleAllIs(accounts, p, sym, price);
      assert FairTrade(accounts, t, sym, price);
      var before := SettleAll(accounts, p, price);
      assert LockedFor(t, price) <= before[t.buyerId].usdLocked && t.qty <= before[t.sellerId].assetLocked[sym];
      TradeTotals(before, t, price);
    }
  }

  // Whatever buyers have locked, no USD is lost, and assets are conserved if sellers have locked theirs.
  lemma {:induction false} SettleLosesNothing(accounts: Accounts, ts: seq<Trade>, sym: nat, price: nat)
    requires AccountsOk(accounts) && sym < NUM_SYMBOLS
    requires Fair(accounts, ts, sym, price) && AssetsCovered(accounts, ts, sym)
    ensures TotalUsd(SettleAll(accounts, ts, price)) >= TotalUsd(accounts)
    ensures forall s :: TotalAsset(SettleAll(accounts, ts, price), s) == TotalAsset(accounts, s)
    decreases |ts|
  {
    hide LockedFor, Cost, TotalUsd, TotalAsset;
    if ts != [] {
      var p, t := ts[..|ts| - 1], ts[|ts| - 1];
      SettleLosesNothing(accounts, p, sym, price);
      SettleAllIs(accounts, p, sym, price);
      assert FairTrade(accounts, t, sym, price);
      var before := SettleAll(accounts, p, price);
      assert t.qty <= before[t.sellerId].assetLocked[sym];
      TradeTotals(before, t, price);
    }
  }
}
