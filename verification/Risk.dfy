/** Two-state margin accounts (src/risk.rs): funds are available or locked. Each operation is given as
    a function on the account map, and the engine that updates the map in place meets it. */
module Risk {
  import opened Types

  datatype Account = Account(
    userId: nat,
    usdAvailable: nat,
    usdLocked: nat,
    assetAvailable: seq<nat>,
    assetLocked: seq<nat>)

  type Accounts = map<nat, Account>

  const NO_ASSETS: seq<nat> := [0, 0, 0]

  function NewAccount(userId: nat): Account {
    Account(userId, 0, 0, NO_ASSETS, NO_ASSETS)
  }

  ghost predicate AccountsOk(accounts: Accounts) {
    forall u :: u in accounts ==>
      accounts[u].userId == u && |accounts[u].assetAvailable| == |accounts[u].assetLocked| == NUM_SYMBOLS
  }

  // Move funds of one account: the new values of its four balances in USD and one asset.
  function With(a: Account, usdAvailable: nat, usdLocked: nat, sym: nat, available: nat, locked: nat): Account
    requires |a.assetAvailable| == |a.assetLocked| == NUM_SYMBOLS && sym < NUM_SYMBOLS
  {
    Account(a.userId, usdAvailable, usdLocked, a.assetAvailable[sym := available], a.assetLocked[sym := locked])
  }

  function Deposited(accounts: Accounts, userId: nat, usd: nat, sym: nat, qty: nat): (r: Accounts)
    requires AccountsOk(accounts)
    ensures AccountsOk(r)
  {
    if sym >= NUM_SYMBOLS then accounts
    else
      var a := if userId in accounts then accounts[userId] else NewAccount(userId);
      accounts[userId := With(a, a.usdAvailable + usd, a.usdLocked, sym, a.assetAvailable[sym] + qty,
          a.assetLocked[sym])]
  }

  // Why funds for an order cannot be locked, in the order of the checks.
  function LockError(accounts: Accounts, o: Order): Option<RejectReason>
    requires AccountsOk(accounts)
  {
    if o.qty == 0 || o.symbolId >= NUM_SYMBOLS then Some(InvalidOrder)
    else if o.userId !in accounts then Some(Unauthorized)
    else if o.side == 0 then
      if o.price == 0 || o.price * o.qty > U64_MAX then Some(InvalidOrder)
      else if accounts[o.userId].usdAvailable < o.price * o.qty then Some(InsufficientFunds)
      else None
    else if accounts[o.userId].assetAvailable[o.symbolId] < o.qty then Some(InsufficientFunds)
    else None
  }

  function Lock(accounts: Accounts, o: Order): (r: (Accounts, Result<()>))
    requires AccountsOk(accounts)
    ensures AccountsOk(r.0)
    ensures r.1.Err? ==> r.0 == accounts
  {
    if o.Kind() == Cancel then (accounts, Ok(()))
    else match LockError(accounts, o)
      case Some(e) => (accounts, Err(e))
      case None =>
        var a := accounts[o.userId];
        var s := o.symbolId;
        var b := if o.side == 0 then
                   With(a, a.usdAvailable - o.price * o.qty, a.usdLocked + o.price * o.qty, s, a.assetAvailable[s],
                       a.assetLocked[s])
                 else
                   With(a, a.usdAvailable, a.usdLocked, s, a.assetAvailable[s] - o.qty, a.assetLocked[s] + o.qty);
        (accounts[o.userId := b], Ok(()))
  }

  // Release what an unexecuted quantity had locked.
  function Unlock(accounts: Accounts, userId: nat, sym: nat, isBuy: bool, price: nat, qty: nat): (r: Accounts)
    requires AccountsOk(accounts)
    ensures AccountsOk(r)
  {
    if qty == 0 || sym >= NUM_SYMBOLS || userId !in accounts then accounts
    else
      var a := accounts[userId];
      var usd := SatMul(price, qty);
      var b := if isBuy then
                 With(a, a.usdAvailable + usd, SatSub(a.usdLocked, usd), sym, a.assetAvailable[sym], a.assetLocked[sym])
               else
                 With(a, a.usdAvailable, a.usdLocked, sym, a.assetAvailable[sym] + qty,
                     SatSub(a.assetLocked[sym], qty));
      accounts[userId := b]
  }

  // An undecodable side byte counts as a buy.
  function UnlockOrder(accounts: Accounts, o: Order, qty: nat): (r: Accounts)
    requires AccountsOk(accounts)
    ensures AccountsOk(r)
  {
    Unlock(accounts, o.userId, o.symbolId, !o.IsSell(), o.price, qty)
  }

  // Release what a finished market order did not use, as the engine computes it.
  function Refund(accounts: Accounts, userId: nat, sym: nat, isBuy: bool, price: nat, qty: nat, executedQty: nat,
                  executedCost: nat): (r: Accounts)
    requires AccountsOk(accounts)
    ensures AccountsOk(r)
  {
    if sym >= NUM_SYMBOLS || userId !in accounts then accounts
    else
      var a := accounts[userId];
      var surplus := SatSub(SatMul(price, qty), executedCost);
      var left := SatSub(qty, executedQty);
      var b := if isBuy then
                 With(a, a.usdAvailable + surplus, SatSub(a.usdLocked, surplus), sym, a.assetAvailable[sym],
                     a.assetLocked[sym])
               else
                 With(a, a.usdAvailable, a.usdLocked, sym, a.assetAvailable[sym] + left,
                     SatSub(a.assetLocked[sym], left));
      accounts[userId := b]
  }

  // The USD a trade takes out of the buyer's lock: a maker locked the trade price, a taker its own limit.
  function LockedFor(t: Trade, takerPrice: nat): nat {
    SatMul(if t.buyerId == t.makerUserId then t.price else takerPrice, t.qty)
  }

  function Cost(t: Trade): nat { SatMul(t.price, t.qty) }

  function SettleBuyer(accounts: Accounts, t: Trade, takerPrice: nat): (r: Accounts)
    requires AccountsOk(accounts) && t.symbolId < NUM_SYMBOLS
    ensures AccountsOk(r)
  {
    if t.buyerId !in accounts then accounts
    else
      var a, s := accounts[t.buyerId], t.symbolId;
      accounts[t.buyerId := With(a, a.usdAvailable + SatSub(LockedFor(t, takerPrice), Cost(t)),
                                 SatSub(a.usdLocked, LockedFor(t, takerPrice)),
                                 s, a.assetAvailable[s] + t.qty, a.assetLocked[s])]
  }

  function SettleSeller(accounts: Accounts, t: Trade): (r: Accounts)
    requires AccountsOk(accounts) && t.symbolId < NUM_SYMBOLS
    ensures AccountsOk(r)
  {
    if t.sellerId !in accounts then accounts
    else
      var a, s := accounts[t.sellerId], t.symbolId;
      accounts[t.sellerId :=
          With(a, a.usdAvailable + Cost(t), a.usdLocked, s, a.assetAvailable[s], SatSub(a.assetLocked[s], t.qty))]
  }

  function Settle(accounts: Accounts, t: Trade, takerPrice: nat): (r: Accounts)
    requires AccountsOk(accounts)
    ensures AccountsOk(r)
  {
    if t.symbolId >= NUM_SYMBOLS then accounts
    else SettleSeller(SettleBuyer(accounts, t, takerPrice), t)
  }

  function SettleAll(accounts: Accounts, ts: seq<Trade>, takerPrice: nat): (r: Accounts)
    requires AccountsOk(accounts)
    ensures AccountsOk(r)
    decreases |ts|
  {
    if ts == [] then accounts
    else Settle(SettleAll(accounts, ts[..|ts| - 1], takerPrice), ts[|ts| - 1], takerPrice)
  }

  // ----- The engine -------------------------------------------------------------------------------

  class RiskEngine {
    var accounts: Accounts

    ghost predicate Valid()
      reads this
    {
      AccountsOk(accounts)
    }

    constructor ()
      ensures Valid() && accounts == map[]
    {
      accounts := map[];
    }

    method DepositFunds(userId: nat, usd: nat, sym: nat, qty: nat)
      requires Valid()
      modifies this
      ensures Valid() && accounts == Deposited(old(accounts), userId, usd, sym, qty)
    {
      if sym >= NUM_SYMBOLS {
        return;
      }
      if userId !in accounts {
        accounts := accounts[userId := NewAccount(userId)];
      }
      var a := accounts[userId];
      a := a.(usdAvailable := a.usdAvailable + usd);
      a := a.(assetAvailable := a.assetAvailable[sym := a.assetAvailable[sym] + qty]);
      accounts := accounts[userId := a];
      assert a.assetLocked[sym := a.assetLocked[sym]] == a.assetLocked;
    }

    // Reserve what an order may spend before it reaches the book.
    method LockOrderFunds(o: Order) returns (r: Result<()>)
      requires Valid()
      modifies this
      ensures Valid() && (accounts, r) == Lock(old(accounts), o)
    {
      if o.Kind() == Cancel {
        return Ok(());
      }
      if o.qty == 0 {
        return Err(InvalidOrder);
      }
      var sym := o.symbolId;
      if sym >= NUM_SYMBOLS {
        return Err(InvalidOrder);
      }
      if o.userId !in accounts {
        return Err(Unauthorized);
      }
      var a := accounts[o.userId];
      if o.side == 0 {
        if o.price == 0 {
          return Err(InvalidOrder);
        }
        var required := o.price * o.qty;
        if required > U64_MAX {
          return Err(InvalidOrder);
        }
        if a.usdAvailable < required {
          return Err(InsufficientFunds);
        }
        a := a.(usdAvailable := a.usdAvailable - required);
        a := a.(usdLocked := a.usdLocked + required);
        assert a.assetAvailable[sym := a.assetAvailable[sym]] == a.assetAvailable;
        assert a.assetLocked[sym := a.assetLocked[sym]] == a.assetLocked;
      } else {
        if a.assetAvailable[sym] < o.qty {
          return Err(InsufficientFunds);
        }
        a := a.(assetAvailable := a.assetAvailable[sym := a.assetAvailable[sym] - o.qty]);
        a := a.(assetLocked := a.assetLocked[sym := a.assetLocked[sym] + o.qty]);
      }
      accounts := accounts[o.userId := a];
      r := Ok(());
    }

    method UnlockOrderFunds(userId: nat, sym: nat, isBuy: bool, price: nat, qty: nat)
      requires Valid()
      modifies this
      ensures Valid() && accounts == Unlock(old(accounts), userId, sym, isBuy, price, qty)
    {
      if qty == 0 {
        return;
      }
      if sym >= NUM_SYMBOLS {
        return;
      }
      if userId in accounts {
        var a := accounts[userId];
        if isBuy {
          var usd := SatMul(price, qty);
          a := a.(usdLocked := SatSub(a.usdLocked, usd));
          a := a.(usdAvailable := a.usdAvailable + usd);
          assert a.assetAvailable[sym := a.assetAvailable[sym]] == a.assetAvailable;
          assert a.assetLocked[sym := a.assetLocked[sym]] == a.assetLocked;
        } else {
          a := a.(assetLocked := a.assetLocked[sym := SatSub(a.assetLocked[sym], qty)]);
          a := a.(assetAvailable := a.assetAvailable[sym := a.assetAvailable[sym] + qty]);
        }
        accounts := accounts[userId := a];
      }
    }

    method UnlockCancelledOrderMargin(o: Order, qty: nat)
      requires Valid()
      modifies this
      ensures Valid() && accounts == UnlockOrder(old(accounts), o, qty)
    {
      UnlockOrderFunds(o.userId, o.symbolId, !o.IsSell(), o.price, qty);
    }

    method RefundMarketOrderRemainder(userId: nat, sym: nat, isBuy: bool, price: nat, qty: nat, executedQty: nat,
                                      executedCost: nat)
      requires Valid()
      modifies this
      ensures Valid() && accounts == Refund(old(accounts), userId, sym, isBuy, price, qty, executedQty, executedCost)
    {
      if sym >= NUM_SYMBOLS {
        return;
      }
      if userId in accounts {
        var a := accounts[userId];
        assert a.assetAvailable[sym := a.assetAvailable[sym]] == a.assetAvailable;
        assert a.assetLocked[sym := a.assetLocked[sym]] == a.assetLocked;
        assert accounts[userId := a] == accounts;
        if isBuy {
          var budget := SatMul(price, qty);
          if budget > executedCost {
            var surplus := budget - executedCost;
            a := a.(usdLocked := SatSub(a.usdLocked, surplus));
            a := a.(usdAvailable := a.usdAvailable + surplus);
            accounts := accounts[userId := a];
          }
        } else {
          var left := SatSub(qty, executedQty);
          if left > 0 {
            a := a.(assetLocked := a.assetLocked[sym := SatSub(a.assetLocked[sym], left)]);
            a := a.(assetAvailable := a.assetAvailable[sym := a.assetAvailable[sym] + left]);
            accounts := accounts[userId := a];
          }
        }
      }
    }

    // Move a trade's money and assets between maker and taker.
    method SettleTrade(t: Trade, takerPrice: nat)
      requires Valid()
      modifies this
      ensures Valid() && accounts == Settle(old(accounts), t, takerPrice)
    {
      var cost := SatMul(t.price, t.qty);
      var sym := t.symbolId;
      if sym >= NUM_SYMBOLS {
        return;
      }
      if t.buyerId in accounts {
        var a := accounts[t.buyerId];
        var lockedPrice := if t.buyerId == t.makerUserId then t.price else takerPrice;
        var lockedUsd := SatMul(lockedPrice, t.qty);
        a := a.(usdLocked := SatSub(a.usdLocked, lockedUsd));
        if lockedUsd > cost {
          a := a.(usdAvailable := a.usdAvailable + (lockedUsd - cost));
        }
        assert a.assetLocked[sym := a.assetLocked[sym]] == a.assetLocked;
        a := a.(assetAvailable := a.assetAvailable[sym := a.assetAvailable[sym] + t.qty]);
        accounts := accounts[t.buyerId := a];
      }
      assert accounts == SettleBuyer(old(accounts), t, takerPrice);
      if t.sellerId in accounts {
        var a := accounts[t.sellerId];
        assert a.assetAvailable[sym := a.assetAvailable[sym]] == a.assetAvailable;
        a := a.(assetLocked := a.assetLocked[sym := SatSub(a.assetLocked[sym], t.qty)]);
        a := a.(usdAvailable := a.usdAvailable + cost);
        accounts := accounts[t.sellerId := a];
      }
    }
  }
}
