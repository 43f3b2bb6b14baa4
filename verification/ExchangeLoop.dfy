/** The engine over three order books, and the single-threaded loop that locks, matches, settles and
    logs (src/book.rs, src/bin/exchange.rs), updating everything in place. */
module ExchangeLoops {
  import opened Types
  import opened Matcher
  import opened OrderBooks
  import opened Risk
  import opened Ledger
  import opened Exposure
  import opened Exchange
  import opened Margin
  import opened Accounting
  import opened Replay
  import Runs

  class MultiAssetEngine {
    const btc: OrderBook
    const eth: OrderBook
    const sol: OrderBook
    var nextId: nat
    ghost const footprint: set<object>

    ghost function Repr(): (r: set<object>)
      ensures this in r
    {
      {this} + btc.Repr() + eth.Repr() + sol.Repr()
    }

    // Three well-formed books that share no memory.
    ghost predicate Valid()
      reads Repr()
    {
      && {this} !! btc.Repr() !! eth.Repr() !! sol.Repr()
      && btc.footprint == btc.Repr() && eth.footprint == eth.Repr() && sol.footprint == sol.Repr()
      && btc.Valid() && eth.Valid() && sol.Valid()
    }

    ghost function Books(): (r: seq<Book>)
      reads Repr()
      ensures |r| == NUM_SYMBOLS
    {
      [btc.Abs(), eth.Abs(), sol.Abs()]
    }

    constructor (priceHash: nat -> nat, idHash: nat -> nat, clientHash: ClientKey -> nat)
      requires forall k :: priceHash(k) < FAST_PRICE_CAPACITY
      requires forall k :: idHash(k) < FAST_MAP_CAPACITY
      requires forall k :: clientHash(k) < FAST_CLIENT_CAPACITY
      ensures Valid() && Books() == [EMPTY, EMPTY, EMPTY] && nextId == 1
      ensures fresh(Repr()) && footprint == Repr()
    {
      hide OrderBook.Valid, OrderBook.Abs, OrderBook.Repr;
      var b := new OrderBook(priceHash, idHash, clientHash);
      var e := new OrderBook(priceHash, idHash, clientHash);
      var s := new OrderBook(priceHash, idHash, clientHash);
      btc, eth, sol := b, e, s;
      nextId := 1;
      footprint := {this} + b.footprint + e.footprint + s.footprint;
    }

    method NextOrderId() returns (id: nat)
      requires Valid()
      modifies this`nextId
      ensures Valid() && Books() == old(Books())
      ensures id == old(nextId) && nextId == id + 1
    {
      hide OrderBook.Valid, OrderBook.Abs, OrderBook.Repr;
      id := nextId;
      nextId := nextId + 1;
    }

    function BookFor(sym: nat): OrderBook
      requires sym < NUM_SYMBOLS
    {
      if sym == 0 then btc else if sym == 1 then eth else sol
    }

    method Process(o: Order, clientId: nat, trades: TradeBuffer) returns (r: Result<ExecutionReport>)
      requires Valid() && trades !in Repr()
      requires o.symbolId < NUM_SYMBOLS && o.Kind() != Cancel ==> FreshId(Books()[o.symbolId], EngineStamp(nextId, o))
      modifies Repr(), trades
      ensures Valid()
      ensures var (books, next, result, made) := EngineProcess(old(Books()), old(nextId), o, clientId);
              Books() == books && nextId == next && r == result && trades.items == old(trades.items) + made
    {
      hide OrderBook.Valid, OrderBook.Abs, OrderBook.Repr, Matcher.Process;
      var sym := o.symbolId;
      if sym >= NUM_SYMBOLS {
        return Err(InvalidOrder);
      }
      var order := o;
      if o.id == 0 {
        order := o.(id := nextId);
        nextId := nextId + 1;
      } else {
        nextId := Max(nextId, o.id + 1);
      }
      r := BookFor(sym).Process(order, clientId, trades);
    }

    method CancelOrder(sym: nat, userId: nat, orderId: nat) returns (r: Result<Order>)
      requires Valid()
      modifies Repr()
      ensures Valid() && nextId == old(nextId)
      ensures var (books, result) := EngineCancel(old(Books()), sym, userId, orderId);
              Books() == books && r == result
    {
      hide OrderBook.Valid, OrderBook.Abs, OrderBook.Repr, Matcher.CancelOrder;
      if sym >= NUM_SYMBOLS {
        return Err(InvalidOrder);
      }
      r := BookFor(sym).Cancel(userId, orderId);
    }
  }

  // A submission brings an id that no resting order has.
  lemma CommandIsFresh(s: State, o: Order)
    requires SysOk(s) && o.symbolId < NUM_SYMBOLS && o.id != 0 && o.id >= s.nextId
    ensures FreshId(s.books[o.symbolId], o)
  {
    hide Flat;
    assert BookOk(s.books[o.symbolId], o.symbolId, s.nextId, s.accounts);
  }

  class CoreLoop {
    const engine: MultiAssetEngine
    const risk: RiskEngine
    const trades: TradeBuffer
    var log: seq<Order>

    ghost function Repr(): set<object> {
      {this, risk, trades} + engine.Repr()
    }

    ghost predicate Apart() {
      engine.footprint == engine.Repr() && {this, risk, trades} !! engine.Repr()
    }

    ghost function Now(): State
      reads Repr()
    {
      State(engine.Books(), engine.nextId, risk.accounts)
    }

    ghost predicate Valid()
      reads Repr()
    {
      Apart() && engine.Valid() && risk.Valid() && SysOk(Now())
    }

    constructor (priceHash: nat -> nat, idHash: nat -> nat, clientHash: ClientKey -> nat)
      requires forall k :: priceHash(k) < FAST_PRICE_CAPACITY
      requires forall k :: idHash(k) < FAST_MAP_CAPACITY
      requires forall k :: clientHash(k) < FAST_CLIENT_CAPACITY
      ensures Valid() && Now() == Runs.START && log == []
      ensures fresh(Repr())
    {
      hide MultiAssetEngine.Repr, MultiAssetEngine.Valid, MultiAssetEngine.Books;
      engine := new MultiAssetEngine(priceHash, idHash, clientHash);
      risk := new RiskEngine();
      trades := new TradeBuffer();
      log := [];
      new;
      Runs.StartOk();
    }

    method DepositFunds(userId: nat, usd: nat, sym: nat, qty: nat)
      requires Valid()
      modifies Repr()
      ensures Valid() && log == old(log)
      ensures Now() == old(Now()).(accounts := Deposited(old(Now()).accounts, userId, usd, sym, qty))
    {
      hide MultiAssetEngine.Repr, MultiAssetEngine.Valid, MultiAssetEngine.Books, SysOk, Deposited;
      ghost var s := Now();
      Runs.DepositBooks(s, userId, usd, sym, qty);
      risk.DepositFunds(userId, usd, sym, qty);
    }

    // Settle the trades in the buffer, then release what the order no longer needs.
    method Finish(o: Order, report: ExecutionReport)
      requires risk.Valid()
      modifies risk
      ensures risk.Valid() && risk.accounts == AfterMatch(old(risk.accounts), o, report, trades.items)
    {
      hide Settle, Unlock, Refund;
      var ts := trades.items;
      var executedQty, executedCost := 0, 0;
      var i := 0;
      assert ts[..0] == [];
      while i < |ts|
        invariant 0 <= i <= |ts| && risk.Valid()
        invariant risk.accounts == SettleAll(old(risk.accounts), ts[..i], o.price)
        invariant executedQty == Over(ts[..i], QtyOf()) && executedCost == Over(ts[..i], SatCostOf())
      {
        risk.SettleTrade(ts[i], o.price);
        executedQty := executedQty + ts[i].qty;
        executedCost := executedCost + SatMul(ts[i].price, ts[i].qty);
        assert ts[..i + 1][..|ts[..i + 1]| - 1] == ts[..i];
        i := i + 1;
      }
      assert ts[..i] == ts;
      if report.stpTriggered && report.remainingQty > 0 {
        risk.UnlockCancelledOrderMargin(o, report.remainingQty);
      }
      if o.Kind() == Market && !report.stpTriggered {
        risk.RefundMarketOrderRemainder(o.userId, o.symbolId, !o.IsSell(), o.price, o.qty, executedQty, executedCost);
      }
    }

    // Cancel a resting order and release its margin.
    method CancelResting(o: Order) returns (r: Result<Order>)
      requires Valid()
      modifies Repr()
      ensures Valid() && log == old(log)
      ensures (Now(), r.Ok?) == CancelStep(old(Now()), o)
    {
      hide MultiAssetEngine.Repr, MultiAssetEngine.Valid, MultiAssetEngine.Books, Matcher.CancelOrder, SysOk, Unlock;
      ghost var s := Now();
      SysStateOk(s);
      CancelBooks(s, o);
      r := engine.CancelOrder(o.symbolId, o.userId, o.id);
      if r.Ok? {
        risk.UnlockCancelledOrderMargin(r.value, r.value.qty);
      }
    }

    // Match a submission whose funds are locked, and settle it; a refused one is unlocked if asked.
    method Execute(o: Order, clientId: nat, unlockOnReject: bool)
      requires Apart() && engine.Valid() && risk.Valid() && StateOk(Now()) && o.Kind() != Cancel
      requires o.symbolId < NUM_SYMBOLS ==> FreshId(Now().books[o.symbolId], EngineStamp(engine.nextId, o))
      modifies Repr()
      ensures engine.Valid() && risk.Valid() && log == old(log)
      ensures Now() == SubmitStep(old(Now()), o, clientId, unlockOnReject)
    {
      hide MultiAssetEngine.Repr, MultiAssetEngine.Valid, MultiAssetEngine.Books, EngineProcess, AfterMatch, Unlock;
      trades.items := [];
      var r := engine.Process(o, clientId, trades);
      assert trades.items == EngineProcess(old(engine.Books()), old(engine.nextId), o, clientId).3;
      match r
      case Ok(report) =>
        Finish(o, report);
      case Err(_) =>
        if unlockOnReject {
          risk.UnlockCancelledOrderMargin(o, o.qty);
        }
    }

    // One command of the live loop.
    method Handle(o: Order, clientId: nat)
      requires Valid() && Command(Now(), o)
      modifies Repr()
      ensures Valid()
      ensures (Now(), log) == (LiveStep(old(Now()), o, clientId).0, old(log) + LiveStep(old(Now()), o, clientId).1)
    {
      hide MultiAssetEngine.Repr, MultiAssetEngine.Valid, MultiAssetEngine.Books, SysOk, CancelStep, SubmitStep, Lock;
      ghost var s := Now();
      SysStateOk(s);
      LiveStepBooks(s, o, clientId);
      if o.Kind() == Cancel {
        var r := CancelResting(o);
        if r.Ok? { log := log + [o]; }
      } else {
        var locked := risk.LockOrderFunds(o);
        if locked.Ok? {
          var order := o;
          if o.id == 0 {
            var id := engine.NextOrderId();
            order := o.(id := id);
          }
          log := log + [order];
          StampIsFresh(s, o);
          Execute(order, clientId, true);
        }
      }
      assert log == old(log) + LiveStep(s, o, clientId).1;
    }

    // Replay one logged order.
    method ReplayOrder(o: Order)
      requires Valid() && (o.Kind() == OrderType.Deposit || Command(Now(), o))
      modifies Repr()
      ensures Valid() && log == old(log)
      ensures Now() == ReplayStep(old(Now()), o)
    {
      hide MultiAssetEngine.Repr, MultiAssetEngine.Valid, MultiAssetEngine.Books, SysOk;
      hide CancelStep, SubmitStep, Lock, Deposited;
      ghost var s := Now();
      SysStateOk(s);
      if o.Kind() == OrderType.Deposit {
        DepositFunds(o.userId, o.price, o.symbolId, o.qty);
        return;
      }
      if o.symbolId >= NUM_SYMBOLS {
        return;
      }
      if o.Kind() == Cancel {
        var _ := CancelResting(o);
      } else {
        ReplayStepBooks(s, o);
        var locked := risk.LockOrderFunds(o);
        if locked.Ok? {
          StampIsFresh(s, o);
          Execute(o, 0, false);
        }
      }
    }

    // The live loop over a sequence of commands.
    method Serve(cmds: seq<Received>)
      requires Valid() && Allowed(Now(), cmds)
      modifies Repr()
      ensures Valid()
      ensures (Now(), log) == (LiveRun(old(Now()), cmds).0, old(log) + LiveRun(old(Now()), cmds).1)
    {
      hide MultiAssetEngine.Repr, MultiAssetEngine.Valid, MultiAssetEngine.Books, SysOk, LiveStep, Command;
      ghost var s := Now();
      SysStateOk(s);
      var i := 0;
      assert cmds[..0] == [] && log + [] == log;
      while i < |cmds|
        invariant 0 <= i <= |cmds| && Valid()
        invariant (Now(), log) == (LiveRun(s, cmds[..i]).0, old(log) + LiveRun(s, cmds[..i]).1)
      {
        assert cmds[..i + 1][..|cmds[..i + 1]| - 1] == cmds[..i];
        AllowedAt(s, cmds, i);
        ghost var before := log;
        Handle(cmds[i].0, cmds[i].1);
        assert log == old(log) + (LiveRun(s, cmds[..i]).1 + LiveStep(LiveRun(s, cmds[..i]).0, cmds[i].0, cmds[i].1).1);
        i := i + 1;
      }
      assert cmds[..i] == cmds;
    }

    // Recovery: replay the orders read back from the log.
    method Recover(orders: seq<Order>)
      requires Valid() && Recoverable(Now(), orders)
      modifies Repr()
      ensures Valid() && log == old(log)
      ensures Now() == ReplayAll(old(Now()), orders)
    {
      hide MultiAssetEngine.Repr, MultiAssetEngine.Valid, MultiAssetEngine.Books, SysOk, ReplayStep, Command;
      ghost var s := Now();
      SysStateOk(s);
      var i := 0;
      assert orders[..0] == [];
      while i < |orders|
        invariant 0 <= i <= |orders| && Valid() && log == old(log)
        invariant Now() == ReplayAll(s, orders[..i])
      {
        assert orders[..i + 1][..|orders[..i + 1]| - 1] == orders[..i];
        RecoverableAt(s, orders, i);
        ReplayOrder(orders[i]);
        i := i + 1;
      }
      assert orders[..i] == orders;
    }
  }

  // ----- Facts about states -----------------------------------------------------------------------

  lemma SysStateOk(s: State)
    requires SysOk(s)
    ensures StateOk(s)
  {
  }

  lemma {:induction false} CancelBooks(s: State, o: Order)
    requires SysOk(s)
    ensures StateOk(s) && SysOk(CancelStep(s, o).0)
  {
    hide CancelStep, BookOk;
    CancelKeepsBooks(s, o);
  }

  lemma StampIsFresh(s: State, o: Order)
    requires SysOk(s) && Command(s, o) && o.Kind() != Cancel
    ensures var p := if o.id == 0 then o.(id := s.nextId) else o;
            o.symbolId < NUM_SYMBOLS ==>
              var b := s.books[o.symbolId];
              FreshId(b, EngineStamp(s.nextId, p)) && FreshId(b, EngineStamp(s.nextId + 1, p))
  {
    hide BookOk;
    var p := if o.id == 0 then o.(id := s.nextId) else o;
    if o.symbolId < NUM_SYMBOLS { CommandIsFresh(s, p); }
  }

  // A replayed submission keeps the books well formed, whether or not it is refused.
  lemma {:induction false} ReplayStepBooks(s: State, o: Order)
    requires SysOk(s) && Command(s, o)
    ensures SysOk(ReplayStep(s, o))
  {
    hide BookOk, CancelStep, Lock, AfterMatch, UnlockOrder, Process;
    LiveStepBooks(s, o, 0);
    if o.Kind() == Cancel {
      CancelKeepsBooks(s, o);
    } else if o.symbolId < NUM_SYMBOLS && Lock(s.accounts, o).1.Ok? {
      var t, u := LiveStep(s, o, 0).0, ReplayStep(s, o);
      assert u.books == t.books && u.nextId == t.nextId;
      LockEffect(s.accounts, o);
      StepKeys(s.(accounts := Lock(s.accounts, o).0), o, 0, false);
      StepKeys(LiveStamp(s, o).1.(accounts := Lock(s.accounts, o).0), LiveStamp(s, o).0, 0, true);
      SameSystem(t, u);
    }
  }

  lemma StepKeys(s: State, o: Order, clientId: nat, unlock: bool)
    requires StateOk(s)
    ensures SubmitStep(s, o, clientId, unlock).accounts.Keys == s.accounts.Keys
  {
    hide EngineProcess, AfterMatch, UnlockOrder;
    var (books, nextId, r, ts) := EngineProcess(s.books, s.nextId, o, clientId);
    if r.Ok? { AfterMatchKeys(s.accounts, o, r.value, ts); } else { UnlockKeys(s.accounts, o, o.qty); }
  }

  lemma SameSystem(s: State, t: State)
    requires SysOk(s) && StateOk(t) && t.books == s.books && t.nextId == s.nextId && t.accounts.Keys == s.accounts.Keys
    ensures SysOk(t)
  {
    hide BookOk;
    forall i {:trigger t.books[i]} | 0 <= i < NUM_SYMBOLS ensures BookOk(t.books[i], i, t.nextId, t.accounts) {
      SameAccepted(s.books[i], i, s.nextId, s.accounts, t.accounts);
    }
  }
}
