/** What a double refund costs, exactly: after every admitted run the USD that is free, together with the
    USD that resting buys stand for, is what was deposited and what was refunded twice. */
module Wealth {
  import opened Types
  import opened Matcher
  import opened PriceTime
  import opened BookEffects
  import opened Risk
  import opened Ledger
  import opened Exposure
  import opened Exchange
  import opened Margin
  import opened BookExposure
  import opened Accounting
  import opened DoubleRefunds
  import opened Runs
  import opened Solvency

  function Free(a: Account): nat { a.usdAvailable }

  ghost function TotalFree(accounts: Accounts): nat { Sum(accounts, Free) }

  function ExposureOf(books: seq<Book>): Account -> nat
    requires |books| == NUM_SYMBOLS
  {
    (a: Account) => UsdExposure(books, a.userId)
  }

  // The USD that resting buys stand for; all their owners have accounts.
  ghost function TotalExposure(s: State): nat
    requires StateOk(s)
  {
    Sum(s.accounts, ExposureOf(s.books))
  }

  ghost function Wealth(s: State): nat
    requires StateOk(s)
  {
    TotalFree(s.accounts) + TotalExposure(s)
  }

  // ----- Free USD ---------------------------------------------------------------------------------

  function LockedOf(price: nat): Trade -> nat { (t: Trade) => LockedFor(t, price) }

  // A settlement frees exactly what the buyer locked: the cost goes to the seller, the rest comes back.
  lemma TradeFrees(accounts: Accounts, t: Trade, price: nat)
    requires AccountsOk(accounts) && FairTrade(accounts, t, t.symbolId, price)
    ensures TotalFree(Settle(accounts, t, price)) == TotalFree(accounts) + LockedFor(t, price)
  {
    hide LockedFor, Cost;
    var mid, r := SettleBuyer(accounts, t, price), Settle(accounts, t, price);
    SumUpdate(accounts, Free, t.buyerId, mid[t.buyerId]);
    SumUpdate(mid, Free, t.sellerId, r[t.sellerId]);
  }

  lemma {:induction false} SettleFrees(accounts: Accounts, ts: seq<Trade>, sym: nat, price: nat)
    requires AccountsOk(accounts) && sym < NUM_SYMBOLS && Fair(accounts, ts, sym, price)
    ensures TotalFree(SettleAll(accounts, ts, price)) == TotalFree(accounts) + Over(ts, LockedOf(price))
    decreases |ts|
  {
    hide LockedFor, Cost, TotalFree;
    if ts != [] {
      var p, t := ts[..|ts| - 1], ts[|ts| - 1];
      SettleFrees(accounts, p, sym, price);
      SettleAllIs(accounts, p, sym, price);
      assert FairTrade(accounts, t, sym, price);
      TradeFrees(SettleAll(accounts, p, price), t, price);
    }
  }

  lemma TradesLock(ts: seq<Trade>, o: Order, accounts: Accounts)
    requires TradesOk(ts, o, accounts)
    ensures Over(ts, LockedOf(o.price)) == if o.side == 0 then o.price * Traded(ts) else Over(ts, CostOf())
  {
    var f := if o.side == 0 then PriceTimes(o.price) else CostOf();
    forall i | 0 <= i < |ts| ensures LockedOf(o.price)(ts[i]) == f(ts[i]) {
      assert TradeOk(ts[i], o, accounts);
      TradeAmounts(ts[i], o, accounts);
    }
    OverSame(ts, LockedOf(o.price), f);
    OverTimes(ts, o.price);
    TradedIs(ts);
  }

  lemma LockFrees(accounts: Accounts, o: Order)
    requires AccountsOk(accounts) && o.Kind() != Cancel && Lock(accounts, o).1.Ok?
    ensures TotalFree(Lock(accounts, o).0) + (if o.side == 0 then o.price * o.qty else 0) == TotalFree(accounts)
  {
    LockEffect(accounts, o);
    SumUpdate(accounts, Free, o.userId, LockedBy(accounts[o.userId], o));
  }

  lemma UnlockFrees(accounts: Accounts, u: nat, sym: nat, isBuy: bool, price: nat, qty: nat)
    requires AccountsOk(accounts) && u in accounts && sym < NUM_SYMBOLS && (isBuy ==> price * qty <= U64_MAX)
    ensures TotalFree(Unlock(accounts, u, sym, isBuy, price, qty)) ==
            TotalFree(accounts) + if isBuy then price * qty else 0
  {
    if qty == 0 {
      assert price * qty == 0;
    } else {
      var r := Unlock(accounts, u, sym, isBuy, price, qty);
      assert r == accounts[u := r[u]];
      SumUpdate(accounts, Free, u, r[u]);
    }
  }

  // The refund of a market order frees its budget less its cost, or nothing.
  lemma RefundFrees(accounts: Accounts, o: Order, left: nat, ts: seq<Trade>)
    requires AccountsOk(accounts) && TradesOk(ts, o, accounts) && Traded(ts) + left == o.qty
    ensures var i := Improvement(ts, o.price);
            var r := Refund(accounts, o.userId, o.symbolId, o.side == 0, o.price, o.qty, Over(ts, QtyOf()),
                            Over(ts, SatCostOf()));
            TotalFree(r) == TotalFree(accounts) + if o.side == 0 then o.price * left + Max0(i) else 0
  {
    hide Over, Traded, Sum;
    if o.side == 0 { CostBound(ts, o, accounts); }
    TradedIs(ts);
    assert o.price * o.qty == o.price * Traded(ts) + o.price * left;
    var r := Refund(accounts, o.userId, o.symbolId, o.side == 0, o.price, o.qty, Over(ts, QtyOf()),
                    Over(ts, SatCostOf()));
    assert r == accounts[o.userId := r[o.userId]];
    SumUpdate(accounts, Free, o.userId, r[o.userId]);
  }

  lemma SettledFree(accounts: Accounts, o: Order, left: nat, ts: seq<Trade>)
    requires Submission(accounts, o, left, ts)
    ensures var r := SettleAll(Lock(accounts, o).0, ts, o.price);
            && r.Keys == accounts.Keys && AccountsOk(r)
            && TotalFree(r) + (if o.side == 0 then o.price * left else 0) ==
               TotalFree(accounts) + if o.side == 0 then 0 else Over(ts, CostOf())
  {
    hide Over, Traded, SettleAll, Lock, SellersCovered, AssetsCovered, MakersCovered, TotalFree, Fair;
    var locked := Lock(accounts, o).0;
    LockFrees(accounts, o);
    LockCovers(accounts, o, left, ts);
    SettleFrees(locked, ts, o.symbolId, o.price);
    SettleAllIs(locked, ts, o.symbolId, o.price);
    TradesLock(ts, o, accounts);
    assert o.price * o.qty == o.price * Traded(ts) + o.price * left;
  }

  // The last move of a submission frees what is neither traded nor kept.
  lemma ReleaseFrees(settled: Accounts, o: Order, report: ExecutionReport, ts: seq<Trade>)
    requires AccountsOk(settled) && TradesOk(ts, o, settled) && Traded(ts) + report.remainingQty == o.qty
    requires o.Kind() == Limit || o.Kind() == Market
    ensures var released := if report.stpTriggered && report.remainingQty > 0
                              then UnlockOrder(settled, o, report.remainingQty) else settled;
            var r := if o.Kind() == Market && !report.stpTriggered then
                       Refund(released, o.userId, o.symbolId, !o.IsSell(), o.price, o.qty, Over(ts, QtyOf()),
                              Over(ts, SatCostOf()))
                     else released;
            TotalFree(r) + (if o.side == 0 then o.price * Kept(o, report) else 0) ==
            TotalFree(settled)
              + if o.side == 0 then o.price * report.remainingQty + Max0(DoubleRefund(o, report, ts)) else 0
  {
    hide Over, Traded, Unlock, Refund, TotalFree, Improvement, TradeOk;
    var left := report.remainingQty;
    MulMono(o.price, o.price, left, o.qty);
    if report.stpTriggered {
      if left > 0 { UnlockFrees(settled, o.userId, o.symbolId, o.side == 0, o.price, left); }
    } else if o.Kind() == Market {
      RefundFrees(settled, o, left, ts);
    }
  }

  // Over a whole submission: what the buy side had locked is free or still behind a resting remainder, and
  // a market buy frees its improvement once more.
  lemma SubmissionFrees(accounts: Accounts, o: Order, report: ExecutionReport, ts: seq<Trade>)
    requires Submission(accounts, o, report.remainingQty, ts)
    ensures var r := AfterMatch(Lock(accounts, o).0, o, report, ts);
            TotalFree(r) + (if o.side == 0 then o.price * Kept(o, report) else 0) ==
            TotalFree(accounts) + if o.side == 0 then Max0(DoubleRefund(o, report, ts)) else Over(ts, CostOf())
  {
    hide Over, Traded, SettleAll, Lock, SellersCovered, TotalFree, UnlockOrder, Refund, DoubleRefund, Kept, TradeOk;
    SettledFree(accounts, o, report.remainingQty, ts);
    var settled := SettleAll(Lock(accounts, o).0, ts, o.price);
    SameKeysOk(ts, o, accounts, settled);
    ReleaseFrees(settled, o, report, ts);
  }

  // ----- The value of resting buys ----------------------------------------------------------------

  lemma {:induction false} SumSame(a: Accounts, b: Accounts, f: Account -> nat)
    requires a.Keys == b.Keys && forall u :: u in a ==> f(a[u]) == f(b[u])
    ensures Sum(a, f) == Sum(b, f)
  {
    if a == map[] {
      assert b == map[];
    } else {
      var u :| u in a;
      SumRemove(a, f, u);
      SumRemove(b, f, u);
      SumSame(a - {u}, b - {u}, f);
    }
  }

  // Exposure depends on the books and on who has an account.
  lemma SameExposures(s: State, t: State)
    requires StateOk(s) && StateOk(t) && s.accounts.Keys == t.accounts.Keys
    ensures TotalExposure(t) == Sum(s.accounts, ExposureOf(t.books))
  {
    hide UsdExposure;
    SumSame(t.accounts, s.accounts, ExposureOf(t.books));
  }

  function MakersUsd(ts: seq<Trade>): Account -> nat { (a: Account) => Over(ts, MakerUsdOf(a.userId)) }

  // Every trade has a maker with an account, so what makers pay adds up to what the trades cost.
  lemma {:induction false} MakersAddUp(ts: seq<Trade>, accounts: Accounts)
    requires AccountsOk(accounts) && forall t :: t in ts ==> t.makerUserId in accounts
    ensures Sum(accounts, MakersUsd(ts)) == Over(ts, CostOf())
    decreases |ts|
  {
    if ts == [] {
      SumNone(accounts, MakersUsd(ts));
    } else {
      var p, t := ts[..|ts| - 1], ts[|ts| - 1];
      MakersAddUp(p, accounts);
      SumOnly(accounts, t.makerUserId, t.price * t.qty);
      SumPlus(accounts, MakersUsd(ts), MakersUsd(p), Only(t.makerUserId, t.price * t.qty));
    }
  }

  lemma MakersKnown(ts: seq<Trade>, o: Order, accounts: Accounts)
    requires TradesOk(ts, o, accounts)
    ensures forall t :: t in ts ==> t.makerUserId in accounts
  {
    forall t | t in ts ensures t.makerUserId in accounts { assert TradeOk(t, o, accounts); }
  }

  lemma {:induction false} SubmissionExposure(s: State, o: Order, clientId: nat)
    requires Sent(s, o) && Solvent(s) && Out(s, o, clientId).result.Ok?
    ensures var t := LiveStep(s, o, clientId).0;
            var p, out := Stamped(s, o), Out(s, o, clientId);
            && StateOk(t)
            && if o.side == 0 then TotalExposure(t) == TotalExposure(s) + p.price * Kept(p, out.result.value)
               else TotalExposure(s) == TotalExposure(t) + Over(out.trades, CostOf())
  {
    hide Wf, Flat, Over, Value, Amount, Submit, Process, Lock, AfterMatch, LiveStep, UsdExposure, Balances, BookOk;
    hide Submission, MakersCovered;
    StampedFacts(s, o, clientId);
    LiveIs(s, o, clientId);
    SellersHold(s, o, clientId);
    var i, p, out, t := o.symbolId, Stamped(s, o), Out(s, o, clientId), LiveStep(s, o, clientId).0;
    AfterMatchIs(s.accounts, p, out.result.value, out.trades);
    SameExposures(s, t);
    var kept := p.price * Kept(p, out.result.value);
    forall u | u in s.accounts
      ensures UsdExposure(t.books, u) + (if o.side == 0 then 0 else Over(out.trades, MakerUsdOf(u))) ==
              UsdExposure(s.books, u) + (if o.side == 0 && u == o.userId then kept else 0)
    {
      SubmitExposure(s.books[i], i, s.accounts, p, clientId, u);
      ExposureUpdate(s.books, i, out.book, u);
      assert p.price * 0 == 0;
    }
    if o.side == 0 {
      SumPlus(s.accounts, ExposureOf(t.books), ExposureOf(s.books), Only(o.userId, kept));
      SumOnly(s.accounts, o.userId, kept);
    } else {
      SubmissionTrades(s.accounts, p, out.result.value.remainingQty, out.trades);
      SumPlus(s.accounts, ExposureOf(s.books), ExposureOf(t.books), MakersUsd(out.trades));
      MakersAddUp(out.trades, s.accounts);
    }
  }

  lemma SubmissionTrades(accounts: Accounts, o: Order, left: nat, ts: seq<Trade>)
    requires Submission(accounts, o, left, ts)
    ensures forall t :: t in ts ==> t.makerUserId in accounts
  {
    MakersKnown(ts, o, accounts);
  }

  // ----- Every command ----------------------------------------------------------------------------

  lemma {:induction false} AcceptedWealth(s: State, o: Order, clientId: nat)
    requires Sent(s, o) && Solvent(s) && Out(s, o, clientId).result.Ok?
    ensures var t := LiveStep(s, o, clientId).0; StateOk(t) && Wealth(t) == Wealth(s) + Surplus(s, o, clientId)
  {
    hide Wf, BookOk, Process, Lock, Submission, AfterMatch, LiveStep, Solvent, TotalFree, TotalExposure, DoubleRefund;
    StampedFacts(s, o, clientId);
    LiveIs(s, o, clientId);
    SellersHold(s, o, clientId);
    SubmissionExposure(s, o, clientId);
    var p, out := Stamped(s, o), Out(s, o, clientId);
    SubmissionFrees(s.accounts, p, out.result.value, out.trades);
    ZeroRefund(p, out.result.value, out.trades);
  }

  lemma {:induction false} RefusedWealth(s: State, o: Order, clientId: nat)
    requires Sent(s, o) && Out(s, o, clientId).result.Err?
    ensures var t := LiveStep(s, o, clientId).0; StateOk(t) && Wealth(t) == Wealth(s) + Surplus(s, o, clientId)
  {
    hide Wf, Flat, Value, Amount, MatchSide, Submit, Process, Lock, Unlock, AfterMatch, LiveStep, NoSlot, TotalFree;
    StampedFacts(s, o, clientId);
    LiveIs(s, o, clientId);
    var i, p, out := o.symbolId, Stamped(s, o), Out(s, o, clientId);
    assert BookOk(s.books[i], i, s.nextId, s.accounts);
    RefusalChangesNothing(s.books[i], p, clientId);
    LockThenUnlock(s.accounts, o, p.id);
    var t := LiveStep(s, o, clientId).0;
    forall u ensures UsdExposure(t.books, u) == UsdExposure(s.books, u) { ExposureUpdate(s.books, i, out.book, u); }
    SameSums(s.accounts, ExposureOf(t.books), ExposureOf(s.books));
  }

  lemma SameSums(accounts: Accounts, f: Account -> nat, g: Account -> nat)
    requires forall a :: f(a) == g(a)
    ensures Sum(accounts, f) == Sum(accounts, g)
  {
    SumMono(accounts, f, g);
    SumMono(accounts, g, f);
  }

  lemma {:induction false} CancelledWealth(s: State, o: Order, cancelled: Order)
    requires SysOk(s) && o.symbolId < NUM_SYMBOLS
    requires CancelOrder(s.books[o.symbolId], o.userId, o.id).1 == Ok(cancelled)
    ensures var t := CancelStep(s, o).0; StateOk(t) && Wealth(t) == Wealth(s)
  {
    hide Wf, Flat, Value, Amount, CancelOrder, Unlock, TotalFree, UsdExposure;
    var i := o.symbolId;
    var b := s.books[i];
    assert BookOk(b, i, s.nextId, s.accounts);
    var c := CancelOrder(b, o.userId, o.id).0;
    CancelExposure(b, o.userId, o.id, o.userId);
    assert cancelled.userId in s.accounts && cancelled.symbolId == i;
    UnlockFrees(s.accounts, o.userId, i, !cancelled.IsSell(), cancelled.price, cancelled.qty);
    var accounts := UnlockOrder(s.accounts, cancelled, cancelled.qty);
    UnlockKeys(s.accounts, cancelled, cancelled.qty);
    var t := State(s.books[i := c], s.nextId, accounts);
    SameExposures(s, t);
    var freed := if cancelled.IsSell() then 0 else cancelled.price * cancelled.qty;
    forall u ensures UsdExposure(s.books, u) == UsdExposure(t.books, u) + if u == o.userId then freed else 0 {
      CancelExposure(b, o.userId, o.id, u);
      ExposureUpdate(s.books, i, c, u);
    }
    SumPlus(s.accounts, ExposureOf(s.books), ExposureOf(t.books), Only(o.userId, freed));
    SumOnly(s.accounts, o.userId, freed);
  }

  lemma {:induction false} CancelWealth(s: State, o: Order)
    requires SysOk(s)
    ensures var t := CancelStep(s, o).0; StateOk(t) && Wealth(t) == Wealth(s)
  {
    hide Wf, Flat, CancelOrder, UnlockOrder, Wealth;
    var i := o.symbolId;
    if i < NUM_SYMBOLS {
      var b := s.books[i];
      assert BookOk(b, i, s.nextId, s.accounts);
      var r := CancelOrder(b, o.userId, o.id).1;
      var k := CancelIsExact(b, o.userId, o.id);
      if r.Err? {
        assert s.books[i := b] == s.books;
      } else {
        CancelledWealth(s, o, r.value);
      }
    }
  }

  // Every admitted command changes free USD and resting value together by exactly what it refunds twice.
  lemma {:induction false} StepWealth(s: State, o: Order, clientId: nat)
    requires SysOk(s) && Solvent(s) && Command(s, o)
    ensures var t := LiveStep(s, o, clientId).0; StateOk(t) && Wealth(t) == Wealth(s) + Surplus(s, o, clientId)
  {
    hide BookOk, Solvent, CancelStep, Out, Lock, Wealth, SubmitStep;
    if o.Kind() == Cancel {
      CancelWealth(s, o);
    } else if Lock(s.accounts, o).1.Ok? {
      StampedFacts(s, o, clientId);
      if Out(s, o, clientId).result.Ok? {
        AcceptedWealth(s, o, clientId);
      } else {
        RefusedWealth(s, o, clientId);
      }
    }
  }

  lemma DepositWealth(s: State, u: nat, usd: nat, sym: nat, qty: nat)
    requires SysOk(s)
    ensures var t := s.(accounts := Deposited(s.accounts, u, usd, sym, qty));
            Wealth(t) == Wealth(s) + if sym < NUM_SYMBOLS then usd else 0
  {
    hide BookOk, UsdExposure;
    var t := s.(accounts := Deposited(s.accounts, u, usd, sym, qty));
    if sym < NUM_SYMBOLS {
      var a := t.accounts[u];
      assert t.accounts == s.accounts[u := a];
      SumUpdate(s.accounts, Free, u, a);
      SumUpdate(s.accounts, ExposureOf(s.books), u, a);
      if u !in s.accounts { NewcomerOwnsNothing(s, u); }
    }
  }

  // ----- Every run --------------------------------------------------------------------------------

  // What the commands of a run refunded twice.
  ghost function RefundedTwice(es: seq<Event>): nat {
    if es == [] then 0
    else
      var p, e := es[..|es| - 1], es[|es| - 1];
      RefundedTwice(p) + if e.Received? then Surplus(Run(p), e.order, e.clientId) else 0
  }

  // After every admitted run, free USD and the value of resting buys are the deposits and what was refunded
  // twice, to the unit.
  lemma {:induction false} RunWealth(es: seq<Event>)
    requires Admitted(es)
    ensures Wealth(Run(es)) == UsdIn(es) + RefundedTwice(es)
  {
    hide SysOk, Solvent, LiveStep, Command, Deposited, Wealth, Surplus;
    if es == [] {
      StartWealth();
    } else {
      var p, e := es[..|es| - 1], es[|es| - 1];
      RunWealth(p);
      RunKeepsBooks(p);
      RunIsSolvent(p);
      match e
      case Funds(u, usd, sym, qty) => DepositWealth(Run(p), u, usd, sym, qty);
      case Received(o, clientId) => StepWealth(Run(p), o, clientId);
    }
  }

  lemma StartWealth()
    ensures StateOk(START) && Wealth(START) == 0
  {
  }

  lemma {:induction false} RefundedIff(es: seq<Event>)
    requires Admitted(es)
    ensures RefundedTwice(es) == 0 <==> NoDoubleRefund(es)
  {
    hide SysOk, Run, RefundsTwice, Surplus, Command;
    if es != [] {
      var p, e := es[..|es| - 1], es[|es| - 1];
      RefundedIff(p);
      RunKeepsBooks(p);
      if e.Received? { SurplusArises(Run(p), e.order, e.clientId); }
    }
  }

  lemma TotalWithin(s: State)
    requires StateOk(s) && UsdWithin(s)
    ensures TotalUsd(s.accounts) <= Wealth(s)
  {
    hide UsdExposure;
    var f := (a: Account) => a.usdLocked;
    SumPlus(s.accounts, Usd, Free, f);
    SumMono(s.accounts, f, ExposureOf(s.books));
  }

  // So a run is left with the wealth that was deposited if and only if no command was refunded twice; and
  // the accounts hold no less than the deposits and no more than what was refunded twice on top.
  lemma WealthIff(es: seq<Event>)
    requires Admitted(es)
    ensures Wealth(Run(es)) == UsdIn(es) <==> NoDoubleRefund(es)
    ensures UsdIn(es) <= TotalUsd(Run(es).accounts) <= UsdIn(es) + RefundedTwice(es)
  {
    hide Run, Wealth, UsdWithin, TotalUsd;
    RunWealth(es);
    RefundedIff(es);
    RunUsd(es);
    TotalWithin(Run(es));
  }
}
