/** What survives even a double refund: locked assets are exactly what rests, assets are conserved, no more
    USD is locked than rests, and no USD is lost. It holds after every admitted run. */
module Solvency {
  import opened Types
  import opened Matcher
  import opened PriceTime
  import opened BookEffects
  import opened Risk
  import opened Ledger
  import opened Exposure
  import opened Exchange
  import opened Margin
  import opened BookExposure
  import opened Accounting
  import opened Runs

  // Locked assets are exactly the quantity of the resting sells.
  ghost predicate AssetsMatch(s: State)
    requires StateOk(s)
  {
    forall u, i {:trigger s.accounts[u].assetLocked[i]} :: u in s.accounts && 0 <= i < NUM_SYMBOLS ==>
      s.accounts[u].assetLocked[i] == Amount(Flat(s.books[i].asks), u)
  }

  // No more USD is locked than stands behind the resting buys.
  ghost predicate UsdWithin(s: State)
    requires StateOk(s)
  {
    forall u :: u in s.accounts ==> s.accounts[u].usdLocked <= UsdExposure(s.books, u)
  }

  ghost predicate Solvent(s: State)
    requires StateOk(s)
  {
    forall u {:trigger s.accounts[u]} :: u in s.accounts ==> AccountHolds(s, u)
  }

  ghost predicate AccountHolds(s: State, u: nat)
    requires StateOk(s) && u in s.accounts
  {
    && s.accounts[u].usdLocked <= UsdExposure(s.books, u)
    && forall i :: 0 <= i < NUM_SYMBOLS ==> s.accounts[u].assetLocked[i] == Amount(Flat(s.books[i].asks), u)
  }

  lemma SolventIs(s: State)
    requires StateOk(s)
    ensures Solvent(s) <==> AssetsMatch(s) && UsdWithin(s)
  {
    hide UsdExposure, Amount, Flat;
    if AssetsMatch(s) && UsdWithin(s) {
      forall u | u in s.accounts ensures AccountHolds(s, u) {}
    }
    if Solvent(s) {
      forall u | u in s.accounts
        ensures s.accounts[u].usdLocked <= UsdExposure(s.books, u)
        ensures forall i :: 0 <= i < NUM_SYMBOLS ==> s.accounts[u].assetLocked[i] == Amount(Flat(s.books[i].asks), u)
      {
        assert AccountHolds(s, u) by { assert s.accounts[u] == s.accounts[u]; }
      }
    }
  }

  // No USD is lost from one state to the next, and no asset lost or won.
  ghost predicate LosesNothing(s: State, t: State) {
    && TotalUsd(t.accounts) >= TotalUsd(s.accounts)
    && forall a :: TotalAsset(t.accounts, a) == TotalAsset(s.accounts, a)
  }

  // ----- Cancels ----------------------------------------------------------------------------------

  // An unlock, of assets no more than is locked, takes what there is and loses nothing.
  lemma UnlockLosesNothing(accounts: Accounts, u: nat, sym: nat, isBuy: bool, price: nat, qty: nat)
    requires AccountsOk(accounts) && u in accounts && sym < NUM_SYMBOLS
    requires if isBuy then price * qty <= U64_MAX else qty <= accounts[u].assetLocked[sym]
    ensures var r := Unlock(accounts, u, sym, isBuy, price, qty);
            && r.Keys == accounts.Keys && (forall v :: v in accounts && v != u ==> r[v] == accounts[v])
            && r[u].usdLocked == SatSub(accounts[u].usdLocked, if isBuy then price * qty else 0)
            && r[u].assetLocked ==
                 accounts[u].assetLocked[sym := accounts[u].assetLocked[sym] - if isBuy then 0 else qty]
            && TotalUsd(r) >= TotalUsd(accounts) && forall s :: TotalAsset(r, s) == TotalAsset(accounts, s)
  {
    hide Sum;
    var r := Unlock(accounts, u, sym, isBuy, price, qty);
    assert accounts[u := accounts[u]] == accounts;
    assert r == accounts[u := r[u]];
    SumUpdate(accounts, Usd, u, r[u]);
    forall s ensures TotalAsset(r, s) == TotalAsset(accounts, s) { SumUpdate(accounts, AssetOf(s), u, r[u]); }
  }

  lemma SameEntry(q: seq<nat>, i: nat)
    requires i < |q|
    ensures q[i := q[i]] == q
  {
  }

  // An account that had usd and qty released, and whose exposure in book i went down by just that.
  lemma ReleasedAccount(s: State, t: State, i: nat, c: Book, u: nat, usd: nat, qty: nat)
    requires StateOk(s) && StateOk(t) && i < NUM_SYMBOLS && u in s.accounts && u in t.accounts && AccountHolds(s, u)
    requires t.books == s.books[i := c]
    requires Value(Flat(s.books[i].bids), u) == Value(Flat(c.bids), u) + usd
    requires Amount(Flat(s.books[i].asks), u) == Amount(Flat(c.asks), u) + qty
    requires t.accounts[u].usdLocked == SatSub(s.accounts[u].usdLocked, usd)
    requires var held := s.accounts[u].assetLocked;
             qty <= held[i] && t.accounts[u].assetLocked == held[i := held[i] - qty]
    ensures AccountHolds(t, u)
  {
    hide Flat, Value, Amount, UsdExposure;
    ExposureUpdate(s.books, i, c, u);
  }

  lemma {:induction false} CancelledSolvent(s: State, o: Order, i: nat, cancelled: Order)
    requires SysOk(s) && Solvent(s) && i == o.symbolId < NUM_SYMBOLS
    requires CancelOrder(s.books[i], o.userId, o.id).1 == Ok(cancelled)
    ensures var t := CancelStep(s, o).0; StateOk(t) && Solvent(t) && LosesNothing(s, t)
  {
    hide Wf, Flat, Value, Amount, CancelOrder, TotalUsd, TotalAsset, Unlock, UsdExposure;
    var b := s.books[i];
    assert BookOk(b, i, s.nextId, s.accounts);
    var c := CancelOrder(b, o.userId, o.id).0;
    CancelExposure(b, o.userId, o.id, o.userId);
    assert cancelled.userId in s.accounts && cancelled.symbolId == i;
    assert AccountHolds(s, o.userId) by { assert s.accounts[o.userId] == s.accounts[o.userId]; }
    UnlockLosesNothing(s.accounts, o.userId, i, !cancelled.IsSell(), cancelled.price, cancelled.qty);
    var accounts := UnlockOrder(s.accounts, cancelled, cancelled.qty);
    var t := State(s.books[i := c], s.nextId, accounts);
    forall u | u in accounts ensures AccountHolds(t, u) {
      assert AccountHolds(s, u) by { assert s.accounts[u] == s.accounts[u]; }
      SameEntry(s.accounts[u].assetLocked, i);
      CancelExposure(b, o.userId, o.id, u);
      var usd := if u == o.userId && !cancelled.IsSell() then cancelled.price * cancelled.qty else 0;
      var qty := if u == o.userId && cancelled.IsSell() then cancelled.qty else 0;
      ReleasedAccount(s, t, i, c, u, usd, qty);
    }
  }

  lemma {:induction false} CancelSolvent(s: State, o: Order)
    requires SysOk(s) && Solvent(s)
    ensures var t := CancelStep(s, o).0; StateOk(t) && Solvent(t) && LosesNothing(s, t)
  {
    hide Wf, Flat, CancelOrder, TotalUsd, TotalAsset, AccountHolds, UnlockOrder;
    var i := o.symbolId;
    if i < NUM_SYMBOLS {
      var b := s.books[i];
      assert BookOk(b, i, s.nextId, s.accounts);
      var r := CancelOrder(b, o.userId, o.id).1;
      var k := CancelIsExact(b, o.userId, o.id);
      if r.Err? {
        assert s.books[i := b] == s.books;
      } else {
        CancelledSolvent(s, o, i, r.value);
      }
    }
  }

  // ----- Submissions ------------------------------------------------------------------------------

  // The sellers among the makers have locked what they trade away.
  lemma {:induction false} SellersHold(s: State, o: Order, clientId: nat)
    requires Sent(s, o) && Solvent(s) && Out(s, o, clientId).result.Ok?
    ensures var out := Out(s, o, clientId);
            Submission(s.accounts, Stamped(s, o), out.result.value.remainingQty, out.trades)
  {
    hide Wf, Flat, Over, Traded, Value, Amount, MatchSide, Rest, TotalUsd, TotalAsset, Lock;
    StampedFacts(s, o, clientId);
    var i, p := o.symbolId, Stamped(s, o);
    var b := s.books[i];
    SweptTradesOk(b, i, s.accounts, p, clientId);
    SweptQuantity(b, i, s.accounts, p, clientId);
    if p.side == 0 {
      forall u | u in s.accounts
        ensures Over(Swept(b, p, clientId).trades, MakerQtyOf(u)) <= s.accounts[u].assetLocked[i]
      {
        SweptExposure(b, i, s.accounts, p, clientId, u);
        assert AccountHolds(s, u) by { assert s.accounts[u] == s.accounts[u]; }
      }
    }
  }

  lemma {:induction false} AccountSolvent(s: State, o: Order, clientId: nat, t: State, u: nat)
    requires Sent(s, o) && Solvent(s) && Out(s, o, clientId).result.Ok? && u in s.accounts
    requires StateOk(t) && t.accounts.Keys == s.accounts.Keys
    requires t.books == s.books[o.symbolId := Out(s, o, clientId).book]
    requires var p, out := Stamped(s, o), Out(s, o, clientId);
             Balances(s.accounts[u], t.accounts[u], p, out.result.value, out.trades, u)
    ensures AccountHolds(t, u)
  {
    hide Wf, Flat, Over, Traded, Value, Amount, MatchSide, Submit;
    hide Process, TotalUsd, TotalAsset, Lock, DoubleRefund, Improvement, BookOk;
    StampedFacts(s, o, clientId);
    var i, p, out := o.symbolId, Stamped(s, o), Out(s, o, clientId);
    assert AccountHolds(s, u) by { assert s.accounts[u] == s.accounts[u]; }
    SubmitExposure(s.books[i], i, s.accounts, p, clientId, u);
    ExposureUpdate(s.books, i, out.book, u);
    assert p.price * 0 == 0;
  }

  lemma {:induction false} AcceptedSolvent(s: State, o: Order, clientId: nat)
    requires Sent(s, o) && Solvent(s) && Out(s, o, clientId).result.Ok?
    ensures var t := LiveStep(s, o, clientId).0; StateOk(t) && Solvent(t) && LosesNothing(s, t)
  {
    hide Wf, BookOk, Balances, Process, TotalUsd, TotalAsset, Lock, Submission;
    hide AfterMatch, LiveStep, UsdExposure, AccountHolds, MakersCovered;
    StampedFacts(s, o, clientId);
    LiveIs(s, o, clientId);
    SellersHold(s, o, clientId);
    var p, out, t := Stamped(s, o), Out(s, o, clientId), LiveStep(s, o, clientId).0;
    AfterMatchIs(s.accounts, p, out.result.value, out.trades);
    forall u | u in t.accounts ensures AccountHolds(t, u) { AccountSolvent(s, o, clientId, t, u); }
  }

  lemma {:induction false} RefusedSolvent(s: State, o: Order, clientId: nat)
    requires Sent(s, o) && Solvent(s) && Out(s, o, clientId).result.Err?
    ensures var t := LiveStep(s, o, clientId).0; StateOk(t) && Solvent(t) && LosesNothing(s, t)
  {
    hide Wf, Flat, Value, Amount, MatchSide, Submit, Process, TotalUsd;
    hide TotalAsset, Lock, Unlock, AfterMatch, LiveStep, DoubleRefund, NoSlot;
    StampedFacts(s, o, clientId);
    LiveIs(s, o, clientId);
    var i, p, out := o.symbolId, Stamped(s, o), Out(s, o, clientId);
    assert BookOk(s.books[i], i, s.nextId, s.accounts);
    RefusalChangesNothing(s.books[i], p, clientId);
    LockThenUnlock(s.accounts, o, p.id);
    var t := LiveStep(s, o, clientId).0;
    forall u | u in t.accounts ensures AccountHolds(t, u) {
      assert AccountHolds(s, u) by { assert s.accounts[u] == s.accounts[u]; }
      ExposureUpdate(s.books, i, out.book, u);
    }
  }

  // ----- Every command and every run --------------------------------------------------------------

  // Every admitted command keeps the system solvent, a double refund included.
  lemma {:induction false} StepIsSolvent(s: State, o: Order, clientId: nat)
    requires SysOk(s) && Solvent(s) && Command(s, o)
    ensures var t := LiveStep(s, o, clientId).0; StateOk(t) && Solvent(t) && LosesNothing(s, t)
  {
    hide BookOk, AccountHolds, CancelStep, Out, Lock, TotalUsd, TotalAsset, SubmitStep;
    if o.Kind() == Cancel {
      CancelSolvent(s, o);
    } else if Lock(s.accounts, o).1.Ok? {
      StampedFacts(s, o, clientId);
      if Out(s, o, clientId).result.Ok? {
        AcceptedSolvent(s, o, clientId);
      } else {
        RefusedSolvent(s, o, clientId);
      }
    }
  }

  lemma DepositSolvent(s: State, u: nat, usd: nat, sym: nat, qty: nat)
    requires SysOk(s) && Solvent(s)
    ensures Solvent(s.(accounts := Deposited(s.accounts, u, usd, sym, qty)))
  {
    hide BookOk, Flat, Value, Amount, UsdExposure;
    var t := s.(accounts := Deposited(s.accounts, u, usd, sym, qty));
    if sym < NUM_SYMBOLS {
      DepositTotals(s.accounts, u, usd, sym, qty);
      forall v | v in t.accounts ensures AccountHolds(t, v) {
        if v in s.accounts {
          assert AccountHolds(s, v) by { assert s.accounts[v] == s.accounts[v]; }
        } else {
          NewcomerOwnsNothing(s, v);
        }
      }
    }
  }

  ghost predicate Accounted(es: seq<Event>) {
    && Solvent(Run(es)) && TotalUsd(Run(es).accounts) >= UsdIn(es)
    && forall a :: TotalAsset(Run(es).accounts, a) == AssetIn(es, a)
  }

  lemma {:induction false} RunIsSolvent(es: seq<Event>)
    requires Admitted(es)
    ensures Accounted(es)
  {
    hide SysOk, Solvent, LiveStep, TotalUsd, TotalAsset, Command, Deposited;
    if es == [] {
      StartIsSolvent();
    } else {
      var p, e := es[..|es| - 1], es[|es| - 1];
      RunIsSolvent(p);
      RunKeepsBooks(p);
      match e
      case Funds(u, usd, sym, qty) =>
        DepositSolvent(Run(p), u, usd, sym, qty);
        DepositAdds(Run(p).accounts, u, usd, sym, qty);
      case Received(o, clientId) => StepIsSolvent(Run(p), o, clientId);
    }
  }

  lemma StartIsSolvent()
    ensures Accounted([])
  {
    hide SysOk;
    StartOk();
    assert Run([]) == START;
  }

  lemma DepositAdds(accounts: Accounts, u: nat, usd: nat, sym: nat, qty: nat)
    requires AccountsOk(accounts)
    ensures var r := Deposited(accounts, u, usd, sym, qty);
            && TotalUsd(r) == TotalUsd(accounts) + (if sym < NUM_SYMBOLS then usd else 0)
            && forall a: nat :: TotalAsset(r, a) == TotalAsset(accounts, a)
                                  + if sym == a && a < NUM_SYMBOLS then qty else 0
  {
    hide TotalUsd, TotalAsset;
    if sym < NUM_SYMBOLS { DepositTotals(accounts, u, usd, sym, qty); }
  }

  // After every admitted run, with or without double refunds, locked assets are exactly the resting sells
  // and every asset is exactly what was deposited of it.
  lemma RunAssets(es: seq<Event>)
    requires Admitted(es)
    ensures AssetsMatch(Run(es)) && forall a :: TotalAsset(Run(es).accounts, a) == AssetIn(es, a)
  {
    hide Run, Solvent, AssetsMatch, UsdWithin, TotalAsset;
    RunIsSolvent(es);
    SolventIs(Run(es));
  }

  // And USD errs on one side only: no account has more locked than its resting buys stand for, and there
  // is no less USD than was deposited.
  lemma RunUsd(es: seq<Event>)
    requires Admitted(es)
    ensures UsdWithin(Run(es)) && TotalUsd(Run(es).accounts) >= UsdIn(es)
  {
    hide Run, Solvent, AssetsMatch, UsdWithin, TotalUsd;
    RunIsSolvent(es);
    SolventIs(Run(es));
  }
}
