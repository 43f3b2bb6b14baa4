/** Runs that show what the exchange can be brought to: money that nobody deposited, live orders that their
    client ids do not reach, and a deposit that only replay makes. */
module Scenarios {
  import opened Types
  import opened Matcher
  import opened PriceTime
  import opened BookSafety
  import opened BookEffects
  import opened Reports
  import opened ClientIndex
  import opened ClientRuns
  import opened ClientReach
  import opened Risk
  import opened Ledger
  import opened Exposure
  import opened Exchange
  import opened Margin
  import opened Accounting
  import opened DoubleRefunds
  import opened Runs
  import opened Replay

  const ORDER_MAGIC: nat := 0x4F42

  // A limit sell of one lot of the first asset by user 1.
  function Sell(price: nat, clientOrderId: nat): Order {
    Order(0, price, 1, 1, clientOrderId, 1, 0, 0, ORDER_MAGIC, (0, 0))
  }

  // ----- Sells that rest --------------------------------------------------------------------------

  // A book without bids in which a sell at this price finds its slots.
  ghost predicate Roomy(b: Book, price: nat) {
    && b.bids == [] && OrderCount(b) + b.leaked < MAX_ARENA_ORDERS
    && (HasPrice(b.asks, price) || LevelCount(b) < MAX_PRICE_LEVELS)
  }

  function Rested(b: Book, r: Resting): Book {
    b.(asks := Place(b.asks, r, true), clients := b.clients[KeyOf(r) := r.order.id],
        orderSeq := Max(b.orderSeq, r.order.id + 1))
  }

  lemma SellRestsInBook(b: Book, p: Order, clientId: nat)
    requires Roomy(b, p.price) && p.IsSell() && p.Kind() == Limit && p.id != 0 && p.qty > 0
    ensures Submit(b, p, clientId) == Outcome(Rested(b, Resting(p, clientId)), Ok(ExecutionReport(0, p.qty, false)), [])
  {
    hide Place, HasPrice, OrderCount, LevelCount, Flat;
    var b0 := b.(orderSeq := StampedSeq(b, p));
    assert AfterSweep(b0, true, Swept(b, p, clientId)) == b0;
    assert p.(qty := p.qty) == p;
    SameOrdersOf(b, b0);
  }

  // Such a sell is logged, takes the next id, locks its lot, and rests.
  lemma SellRests(s: State, o: Order, clientId: nat)
    requires Sent(s, o) && o.id == 0 && o.IsSell() && o.Kind() == Limit && o.symbolId < NUM_SYMBOLS
    requires Roomy(s.books[o.symbolId], o.price)
    ensures var (t, log) := LiveStep(s, o, clientId);
            var p := o.(id := s.nextId);
            && SysOk(t) && log == [p] && !Refused(s, o, clientId)
            && t == State(s.books[o.symbolId := Rested(s.books[o.symbolId], Resting(p, clientId))],
                          s.nextId + 1, Lock(s.accounts, o).0)
  {
    hide Wf, BookOk, Roomy, Rested, Submit, Process, Lock, EngineProcess;
    StampedFacts(s, o, clientId);
    LiveIs(s, o, clientId);
    LiveStepBooks(s, o, clientId);
    LockEffect(s.accounts, o);
    var p := Stamped(s, o);
    SellRestsInBook(s.books[o.symbolId], p, clientId);
    RefusedIs(s, o, clientId);
  }

  // A sell takes one lot of the seller's first asset.
  lemma SellLocks(accounts: Accounts, price: nat, clientOrderId: nat)
    requires AccountsOk(accounts) && 1 in accounts && accounts[1].assetAvailable[0] > 0
    ensures var (r, res) := Lock(accounts, Sell(price, clientOrderId));
            res.Ok? && 1 in r && AccountsOk(r) && r[1].assetAvailable[0] == accounts[1].assetAvailable[0] - 1
  {
    assert LockError(accounts, Sell(price, clientOrderId)) == None;
  }

  lemma BookOf(s: State, i: nat)
    requires SysOk(s) && i < NUM_SYMBOLS
    ensures StateOk(s) && BookOk(s.books[i], i, s.nextId, s.accounts)
  {
  }

  lemma OneTrade(t: Trade)
    ensures Traded([t]) == t.qty && Over([t], CostOf()) == t.price * t.qty
  {
    assert [t][1..] == [] && [t][..0] == [];
  }

  lemma LocksOf(es: seq<Event>)
    requires Balanced(es)
    ensures LocksMatch(Run(es)) && TotalUsd(Run(es).accounts) == UsdIn(es)
  {
  }

  lemma RunSnoc(es: seq<Event>)
    requires es != []
    ensures Run(es) == Step(Run(es[..|es| - 1]), es[|es| - 1])
  {
  }

  // ----- A run that creates money -----------------------------------------------------------------

  const MARKET_BUY_AT_10: Order := Order(0, 10, 1, 2, 1, 0, 1, 0, ORDER_MAGIC, (0, 0))

  const MONEY_RUN: seq<Event> :=
    [Funds(1, 0, 0, 1), Funds(2, 10, 0, 0), Received(Sell(5, 1), 7), Received(MARKET_BUY_AT_10, 8)]

  function Funded(): Accounts { Deposited(Deposited(map[], 1, 0, 0, 1), 2, 10, 0, 0) }

  lemma FundedIs()
    ensures AccountsOk(Funded()) && 1 in Funded() && 2 in Funded()
    ensures Funded()[1].assetAvailable[0] == 1 && Funded()[2].usdAvailable == 10 && Funded()[2].usdLocked == 0
  {
  }

  lemma FundsPrefix()
    ensures Admitted(MONEY_RUN[..2]) && NoDoubleRefund(MONEY_RUN[..2])
    ensures Run(MONEY_RUN[..2]) == START.(accounts := Funded())
  {
    hide Deposited, Run;
    var e1, e2 := [Funds(1, 0, 0, 1)], MONEY_RUN[..2];
    assert e1[..|e1| - 1] == [] && e2 == e1 + [Funds(2, 10, 0, 0)] && e2[..|e2| - 1] == e1;
    RunSnoc(e1);
    RunSnoc(e2);
    StartIsRun();
  }

  // After the first sell, a lot at 5 is on offer and the buyer still has its 10.
  lemma SellerRests()
    ensures var s := Run(MONEY_RUN[..3]);
            && Admitted(MONEY_RUN[..3]) && NoDoubleRefund(MONEY_RUN[..3]) && SysOk(s) && Balanced(MONEY_RUN[..3])
            && s.nextId == 2 && s.books[0].asks == [Level(5, [Resting(Sell(5, 1).(id := 1), 7)])]
            && 2 in s.accounts && s.accounts[2].usdAvailable == 10 && s.accounts[2].usdLocked == 0
  {
    hide LiveStep, Balanced, SysOk;
    var e3, o := MONEY_RUN[..3], Sell(5, 1);
    assert e3[..2] == MONEY_RUN[..2] && e3[2] == Received(o, 7);
    FundsPrefix();
    FundedIs();
    var s := START.(accounts := Funded());
    RunKeepsBooks(e3[..2]);
    assert LockError(s.accounts, o) == None;
    assert Roomy(EMPTY, 5) by { assert Flat([]) == []; }
    SellRests(s, o, 7);
    assert Admitted(e3) && NoDoubleRefund(e3);
    RunIsSafe(e3);
  }

  lemma BuyerIsRefundedTwice(s: State)
    requires StateOk(s) && s.nextId == 2 && s.books[0].asks == [Level(5, [Resting(Sell(5, 1).(id := 1), 7)])]
    requires 2 in s.accounts && s.accounts[2].usdAvailable == 10
    ensures Command(s, MARKET_BUY_AT_10) && RefundsTwice(s, MARKET_BUY_AT_10)
  {
    var q := Flat(s.books[0].asks);
    assert s.books[0].asks[1..] == [] && Flat([]) == [];
    assert q == [Resting(Sell(5, 1).(id := 1), 7)];
    assert Eligible(MARKET_BUY_AT_10, q[1..]) == 0;
    assert Eligible(MARKET_BUY_AT_10, q) == 1;
  }

  // It trades one lot at 5, so half of its 10 comes back at settlement, and then again.
  lemma SurplusIsFive(s: State)
    requires SysOk(s) && s.nextId == 2 && s.books[0].asks == [Level(5, [Resting(Sell(5, 1).(id := 1), 7)])]
    requires 2 in s.accounts && s.accounts[2].usdAvailable == 10
    ensures Surplus(s, MARKET_BUY_AT_10, 8) == 5
  {
    hide Wf, MatchSide, Drain, Lock, SysOk;
    var o := MARKET_BUY_AT_10;
    BookOf(s, 0);
    BuyerIsRefundedTwice(s);
    var p, b := Stamped(s, o), s.books[0];
    var q := Flat(b.asks);
    assert b.asks[1..] == [] && Flat([]) == [];
    assert q == [Resting(Sell(5, 1).(id := 1), 7)];
    assert Eligible(p, q[1..]) == 0;
    assert Eligible(p, q) == 1;
    StampedFacts(s, o, 8);
    SidesOk(b);
    SweepIsWaterfall(p, 1, 8, b.asks, b.clients, b.tradeSeq, true);
    VolumeNone(q);
    var ts := Swept(b, p, 8).trades;
    assert |ts| == 1 && ts[0] == MakeTrade(p, 8, q[0], 1, b.tradeSeq);
    assert ts == [ts[0]];
    OneTrade(ts[0]);
  }

  // One seller at 5, then a market buy of up to 10: 5 more USD than anybody deposited.
  lemma MarketBuyCreatesMoney()
    ensures Admitted(MONEY_RUN) && Balanced(MONEY_RUN[..3]) && !Balanced(MONEY_RUN)
    ensures TotalUsd(Run(MONEY_RUN).accounts) == UsdIn(MONEY_RUN) + 5
  {
    hide LiveStep, Balanced, RefundsTwice, SysOk, Command, Surplus, TotalUsd, Run;
    SellerRests();
    var e3 := MONEY_RUN[..3];
    assert MONEY_RUN[..|MONEY_RUN| - 1] == e3 && MONEY_RUN[3] == Received(MARKET_BUY_AT_10, 8);
    var s := Run(e3);
    BuyerIsRefundedTwice(s);
    SurplusIsFive(s);
    LastBalanced(MONEY_RUN);
    LocksOf(e3);
    LiveStepAccounts(s, MARKET_BUY_AT_10, 8);
    RunSnoc(MONEY_RUN);
  }

  // ----- Two sells by one user --------------------------------------------------------------------

  // Sells at 5 and 6 under client ids c and d; they get the exchange ids 1 and 2.
  function TwoSells(c: nat, d: nat): seq<Event> {
    [Funds(1, 0, 0, 2), Received(Sell(5, c), 7), Received(Sell(6, d), 7)]
  }

  function First(c: nat): Resting { Resting(Sell(5, c).(id := 1), 7) }

  function Second(d: nat): Resting { Resting(Sell(6, d).(id := 2), 7) }

  lemma TwoLots(c: nat, d: nat)
    ensures var es := TwoSells(c, d)[..1];
            var s := Run(es);
            && Admitted(es) && SysOk(s) && s.books == START.books && s.nextId == 1
            && 1 in s.accounts && s.accounts[1].assetAvailable[0] == 2
  {
    var e1 := TwoSells(c, d)[..1];
    assert e1 == [Funds(1, 0, 0, 2)] && e1[..0] == [];
    RunSnoc(e1);
    StartIsRun();
    RunKeepsBooks(e1);
  }

  lemma EmptyHasRoom(c: nat)
    ensures Roomy(EMPTY, 5)
    ensures var b := Rested(EMPTY, First(c));
            b.asks == [Level(5, [First(c)])] && b.bids == [] && b.leaked == 0 && b.clients == map[(1, c) := 1]
  {
    assert Flat([]) == [];
  }

  lemma FirstRests(c: nat, d: nat)
    ensures var es := TwoSells(c, d)[..2];
            var s := Run(es);
            && Admitted(es) && SysOk(s) && s.nextId == 2
            && s.books[0].asks == [Level(5, [First(c)])] && s.books[0].bids == [] && s.books[0].leaked == 0
            && s.books[0].clients == map[(1, c) := 1]
            && 1 in s.accounts && s.accounts[1].assetAvailable[0] == 1
  {
    hide SysOk, LiveStep, Lock, Roomy, Rested, Run;
    TwoLots(c, d);
    var e, s, o := TwoSells(c, d)[..2], Run(TwoSells(c, d)[..1]), Sell(5, c);
    assert e[..|e| - 1] == TwoSells(c, d)[..1] && e[1] == Received(o, 7);
    BookOf(s, 0);
    SellLocks(s.accounts, 5, c);
    EmptyHasRoom(c);
    SellRests(s, o, 7);
    RunSnoc(e);
  }

  // With only the first sell on the book there is room for the second.
  lemma FirstOnly(b: Book, c: nat, d: nat)
    requires b.asks == [Level(5, [First(c)])] && b.bids == [] && b.leaked == 0
    ensures Roomy(b, 6) && ComesToRest(b, Sell(6, d)) && (KeyIsLive(b, Sell(6, d)) <==> c == d)
    ensures Rested(b, Second(d)).asks == [Level(5, [First(c)]), Level(6, [Second(d)])]
    ensures Rested(b, Second(d)).clients == b.clients[(1, d) := 2] && Rested(b, Second(d)).bids == []
  {
    assert b.asks[1..] == [] && Flat([]) == [];
    assert Flat(b.asks) == [First(c)];
    assert Orders(b) == [First(c)];
    assert First(c) in Orders(b);
    assert Place([], Second(d), true) == [Level(6, [Second(d)])];
  }

  // Under its own client id the second rests beside the first; under the same one it takes its entry over.
  lemma SecondRests(c: nat, d: nat)
    ensures var s := Run(TwoSells(c, d));
            && Admitted(TwoSells(c, d)) && SysOk(s)
            && (ReusesLiveKey(Run(TwoSells(c, d)[..2]), Sell(6, d)) <==> c == d)
            && s.books[0].asks == [Level(5, [First(c)]), Level(6, [Second(d)])] && s.books[0].bids == []
            && s.books[0].clients == map[(1, c) := 1][(1, d) := 2]
  {
    hide SysOk, LiveStep, Lock, Roomy, Rested, Run, ComesToRest, KeyIsLive;
    FirstRests(c, d);
    var e, s, o := TwoSells(c, d), Run(TwoSells(c, d)[..2]), Sell(6, d);
    assert e[..|e| - 1] == e[..2] && e[2] == Received(o, 7);
    BookOf(s, 0);
    var b := s.books[0];
    SellLocks(s.accounts, 6, d);
    FirstOnly(b, c, d);
    SellRests(s, o, 7);
    RunSnoc(e);
  }

  lemma TwoOrders(b: Book, c: nat, d: nat)
    requires b.asks == [Level(5, [First(c)]), Level(6, [Second(d)])] && b.bids == []
    ensures Orders(b) == [First(c), Second(d)]
  {
    assert b.asks[1..] == [Level(6, [Second(d)])] && b.asks[1..][1..] == [] && Flat([]) == [];
    assert Flat(b.asks[1..]) == [Second(d)];
  }

  // Until the second sell no client id is reused.
  lemma NoReuseYet(c: nat, d: nat)
    ensures NoKeyReuse(TwoSells(c, d)[..2])
  {
    hide SysOk, LiveStep, Run, ComesToRest, Command, Lock;
    TwoLots(c, d);
    var e1, e2 := TwoSells(c, d)[..1], TwoSells(c, d)[..2];
    assert e1[..|e1| - 1] == [] && e2[..|e2| - 1] == e1 && e1[0].Funds? && e2[1] == Received(Sell(5, c), 7);
    assert Orders(EMPTY) == [] by { assert Flat([]) == []; }
    assert NoKeyReuse(e1);
  }

  lemma EndComplete(es: seq<Event>)
    requires Admitted(es) && NoKeyReuse(es)
    ensures IndexComplete(Run(es))
  {
    hide IndexComplete, Run, Command, ReusesLiveKey;
    CompleteIff(es);
    assert es[..|es|] == es;
  }

  // ----- A live order that its client id no longer reaches ----------------------------------------

  // Two sells under client id 77, and a cancel by that client id.
  const CANCEL_77: Order := Order(77, 0, 0, 1, 0, 0, 2, 0, ORDER_MAGIC, (0, 0))

  const REUSE_RUN: seq<Event> := TwoSells(77, 77) + [Received(CANCEL_77, 7)]

  // Cancelling by client id 77 takes out the second sell. The first still rests, and a second cancel by
  // client id 77 does not find it.
  lemma ClientIdIsLost()
    ensures var s := Run(REUSE_RUN);
            && Admitted(REUSE_RUN) && IndexComplete(Run(REUSE_RUN[..2])) && !IndexComplete(s)
            && First(77) in Orders(s.books[0]) && KeyOf(First(77)) == (1, 77)
            && CancelOrder(s.books[0], 1, 77) == (s.books[0], Err(OrderNotFound))
            && LiveStep(s, CANCEL_77, 7) == (s, [])
  {
    hide SysOk, LiveStep, Run, IndexComplete, ReusesLiveKey, Flat, CancelOrder;
    FirstRests(77, 77);
    SecondRests(77, 77);
    var e3, s := TwoSells(77, 77), Run(TwoSells(77, 77));
    assert REUSE_RUN[..|REUSE_RUN| - 1] == e3 && REUSE_RUN[3] == Received(CANCEL_77, 7);
    assert REUSE_RUN[..2] == e3[..2];
    RunSnoc(REUSE_RUN);
    assert Admitted(REUSE_RUN);
    BookOf(s, 0);
    SecondCancelled(s.books[0]);
    CancelLosesFirst(s, Run(REUSE_RUN));
    NoReuseYet(77, 77);
    EndComplete(e3[..2]);
  }

  lemma SecondCancelled(b: Book)
    requires Wf(b) && b.asks == [Level(5, [First(77)]), Level(6, [Second(77)])] && b.bids == []
    requires b.clients == map[(1, 77) := 2]
    ensures var c := CancelOrder(b, 1, 77).0;
            && CancelOrder(b, 1, 77).1.Ok? && Wf(c) && First(77) in Orders(c) && (1, 77) !in c.clients
            && CancelOrder(c, 1, 77) == (c, Err(OrderNotFound))
  {
    hide Wf, CancelOrder, Flat;
    TwoOrders(b, 77, 77);
    var k := CancelIsExact(b, 1, 77);
    ReusedClientIdIsLost(b, 1, 77, First(77));
    var c := CancelOrder(b, 1, 77).0;
    assert Orders(c) == Orders(b)[..k] + Orders(b)[k + 1..];
    var j := CancelIsExact(c, 1, 77);
  }

  lemma CancelLosesFirst(s: State, t: State)
    requires SysOk(s) && CancelOrder(s.books[0], 1, 77).1.Ok? && t == LiveStep(s, CANCEL_77, 7).0
    requires var c := CancelOrder(s.books[0], 1, 77).0;
             First(77) in Orders(c) && (1, 77) !in c.clients && CancelOrder(c, 1, 77) == (c, Err(OrderNotFound))
    ensures t.books[0] == CancelOrder(s.books[0], 1, 77).0 && StateOk(t) && !IndexComplete(t)
    ensures LiveStep(t, CANCEL_77, 7) == (t, [])
  {
    hide BookOk, CancelOrder, Orders, UnlockOrder;
    assert t.books[0 := t.books[0]] == t.books;
    assert KeyOf(First(77)) == (1, 77);
    assert !Complete(Orders(t.books[0]), t.books[0].clients);
  }

  // ----- A client id that is the exchange id of another order -------------------------------------

  // The first sell has client id 2, and the second gets 2 for an exchange id. No client id is reused and
  // every order has its entry, but a cancel by client id 2 takes out the second sell.
  lemma ClientIdIsMistaken()
    ensures var es, s := TwoSells(2, 9), Run(TwoSells(2, 9));
            && Admitted(es) && NoKeyReuse(es) && IndexComplete(s) && !OwnersReach(s)
            && First(2) in Orders(s.books[0]) && KeyOf(First(2)) in s.books[0].clients
            && s.books[0].clients[KeyOf(First(2))] == First(2).order.id
            && CancelOrder(s.books[0], 1, 2).1 == Ok(Second(9).order)
  {
    hide SysOk, LiveStep, Run, IndexComplete, ReusesLiveKey, Flat;
    SecondRests(2, 9);
    NoReuseYet(2, 9);
    var es, s := TwoSells(2, 9), Run(TwoSells(2, 9));
    assert es[..|es| - 1] == es[..2] && es[2] == Received(Sell(6, 9), 7);
    EndComplete(es);
    TwoOrders(s.books[0], 2, 9);
    FoundSecond();
    assert !Reached(s.books[0], First(2));
  }

  lemma FoundSecond()
    ensures FindIn([First(2), Second(9)], 2) == Some(Second(9))
  {
    assert [First(2), Second(9)][1..] == [Second(9)];
  }

  // ----- A deposit that replay invents ------------------------------------------------------------

  const DEPOSIT_ORDER: Order := Order(0, 10, 1, 2, 1, 0, 3, 0, ORDER_MAGIC, (0, 0))

  function Buyer(): Accounts { Deposited(map[], 2, 10, 0, 0) }

  // User 2 with so much free and locked USD, and so many lots of the first asset.
  function Holding(usd: nat, locked: nat, lots: nat): Accounts {
    map[2 := Account(2, usd, locked, [lots, 0, 0], NO_ASSETS)]
  }

  lemma FirstDeposit()
    ensures Buyer() == Holding(10, 0, 0)
  {
    var a := NewAccount(2);
    assert a.assetAvailable[0 := 0] == [0, 0, 0] && a.assetLocked[0 := 0] == NO_ASSETS;
  }

  lemma SecondDeposit()
    ensures Deposited(Holding(10, 0, 0), 2, 10, 0, 1) == Holding(20, 0, 1)
  {
    var a := Holding(10, 0, 0)[2];
    assert a.assetAvailable[0 := 1] == [1, 0, 0] && a.assetLocked[0 := 0] == NO_ASSETS;
  }

  lemma OrderLocked()
    ensures Lock(Holding(10, 0, 0), DEPOSIT_ORDER).1.Ok?
    ensures Lock(Holding(10, 0, 0), DEPOSIT_ORDER).0 == Holding(0, 10, 0)
  {
    var a := Holding(10, 0, 0)[2];
    assert LockError(Holding(10, 0, 0), DEPOSIT_ORDER) == None;
    assert a.assetAvailable[0 := 0] == [0, 0, 0] && a.assetLocked[0 := 0] == NO_ASSETS;
  }

  // On an empty book it neither trades nor rests.
  lemma NothingToBuy(p: Order)
    requires p.id == 1 && p.Kind() == OrderType.Deposit && !p.IsSell()
    ensures Process(EMPTY, p, 8) == Outcome(EMPTY.(orderSeq := 2), Ok(ExecutionReport(0, p.qty, false)), [])
    ensures Orders(EMPTY) == Orders(EMPTY.(orderSeq := 2)) == []
  {
    assert Flat([]) == [];
  }

  // User 2 has 10 USD and sends an order of type deposit for one lot at 10. Live, its 10 USD are locked and
  // stay so with nothing at rest; after replay it has 20 USD free, and a lot.
  lemma DepositIsInvented()
    ensures AccountsOk(Buyer()) && SysOk(START.(accounts := Buyer()))
    ensures var s := START.(accounts := Buyer());
            var (t, log) := LiveStep(s, DEPOSIT_ORDER, 8);
            && StateOk(t) && |log| == 1 && (forall i :: 0 <= i < NUM_SYMBOLS ==> Orders(t.books[i]) == [])
            && t.accounts == Holding(0, 10, 0)
            && StateOk(EraseState(s)) && ReplayStep(EraseState(s), log[0]).accounts == Holding(20, 0, 1)
  {
    hide Process, SysOk;
    var s, o := START.(accounts := Buyer()), DEPOSIT_ORDER;
    StartOk();
    DepositBooks(START, 2, 10, 0, 0);
    FirstDeposit();
    SecondDeposit();
    OrderLocked();
    DepositNotRebuilt(s, o, 8);
    NothingToBuy(o.(id := 1));
  }
}
