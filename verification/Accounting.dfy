/** Every step of the live loop keeps locked funds equal to resting exposure and conserves money and
    assets, except that a market buy filled below its own price refunds its improvement twice. */
module Accounting {
  import opened Types
  import opened Matcher
  import opened PriceTime
  import opened BookSafety
  import opened BookEffects
  import opened Risk
  import opened Ledger
  import opened Exposure
  import opened Exchange
  import opened Margin
  import opened BookExposure

  lemma ExposureUpdate(books: seq<Book>, i: nat, b: Book, u: nat)
    requires |books| == NUM_SYMBOLS && i < NUM_SYMBOLS
    ensures UsdExposure(books[i := b], u) + Value(Flat(books[i].bids), u) ==
            UsdExposure(books, u) + Value(Flat(b.bids), u)
  {
    hide Value, Flat;
  }

  // Books keep their orders accepted as long as no account disappears.
  lemma BooksStay(s: State, i: nat, b: Book, nextId: nat, accounts: Accounts)
    requires SysOk(s) && i < NUM_SYMBOLS && nextId >= s.nextId && accounts.Keys == s.accounts.Keys
    requires AccountsOk(accounts)
    requires BookOk(b, i, nextId, accounts)
    ensures SysOk(State(s.books[i := b], nextId, accounts))
  {
    hide Wf, Flat;
    var books := s.books[i := b];
    forall j {:trigger books[j]} | 0 <= j < NUM_SYMBOLS ensures BookOk(books[j], j, nextId, accounts) {
      assert BookOk(s.books[j], j, s.nextId, s.accounts);
    }
  }

  // ----- Cancels ----------------------------------------------------------------------------------

  lemma {:induction false} CancelStepKeeps(s: State, o: Order)
    requires SysOk(s) && LocksMatch(s)
    ensures var t := CancelStep(s, o).0;
            && SysOk(t) && LocksMatch(t) && t.accounts.Keys == s.accounts.Keys
            && TotalUsd(t.accounts) == TotalUsd(s.accounts)
            && forall a :: TotalAsset(t.accounts, a) == TotalAsset(s.accounts, a)
    ensures !CancelStep(s, o).1 ==> CancelStep(s, o).0 == s
  {
    hide Wf, Flat, Value, Amount, CancelOrder, TotalUsd, TotalAsset, Unlock;
    var i := o.symbolId;
    if i < NUM_SYMBOLS {
      var b := s.books[i];
      assert BookOk(b, i, s.nextId, s.accounts);
      var (c, r) := CancelOrder(b, o.userId, o.id);
      var k := CancelIsExact(b, o.userId, o.id);
      if r.Err? {
        assert s.books[i := b] == s.books;
      } else {
        CancelledMargin(s, o, i, r.value);
      }
    }
  }

  lemma {:induction false} CancelledMargin(s: State, o: Order, i: nat, cancelled: Order)
    requires SysOk(s) && LocksMatch(s) && i == o.symbolId < NUM_SYMBOLS
    requires CancelOrder(s.books[i], o.userId, o.id).1 == Ok(cancelled)
    ensures var t := CancelStep(s, o).0;
            && SysOk(t) && LocksMatch(t) && t.accounts.Keys == s.accounts.Keys
            && TotalUsd(t.accounts) == TotalUsd(s.accounts)
            && forall a :: TotalAsset(t.accounts, a) == TotalAsset(s.accounts, a)
  {
    hide Wf, Flat, Value, Amount, CancelOrder, TotalUsd, TotalAsset, Unlock;
    var b := s.books[i];
    assert BookOk(b, i, s.nextId, s.accounts);
    var c := CancelOrder(b, o.userId, o.id).0;
    var k := CancelIsExact(b, o.userId, o.id);
    CancelExposure(b, o.userId, o.id, o.userId);
    assert cancelled.userId in s.accounts && cancelled.symbolId == i;
    assert AccountMatches(s, o.userId) by { assert s.accounts[o.userId] == s.accounts[o.userId]; }
    UnlockEffect(s.accounts, o.userId, i, !cancelled.IsSell(), cancelled.price, cancelled.qty);
    var accounts := UnlockOrder(s.accounts, cancelled, cancelled.qty);
    CancelSeq(b, o.userId, o.id);
    assert Accepted(c, i, accounts);
    BooksStay(s, i, c, s.nextId, accounts);
    var t := State(s.books[i := c], s.nextId, accounts);
    forall u | u in accounts ensures AccountMatches(t, u) {
      assert s.accounts[u] == s.accounts[u];
      CancelExposure(b, o.userId, o.id, u);
      ExposureUpdate(s.books, i, c, u);
    }
  }

  lemma CancelSeq(b: Book, userId: nat, id: nat)
    ensures CancelOrder(b, userId, id).0.orderSeq == b.orderSeq
  {
  }

  // ----- Submissions ------------------------------------------------------------------------------

  // The submission as the engine sees it, with its id, and its outcome on its book.
  function Stamped(s: State, o: Order): Order { LiveStamp(s, o).0 }

  function Out(s: State, o: Order, clientId: nat): Outcome
    requires StateOk(s) && o.symbolId < NUM_SYMBOLS
  {
    Process(s.books[o.symbolId], Stamped(s, o), clientId)
  }

  // A submission whose funds can be locked.
  ghost predicate Sent(s: State, o: Order) {
    SysOk(s) && Command(s, o) && o.Kind() != Cancel && Lock(s.accounts, o).1.Ok?
  }

  ghost predicate Live(s: State, o: Order) {
    Sent(s, o) && LocksMatch(s)
  }

  lemma {:induction false} StampedFacts(s: State, o: Order, clientId: nat)
    requires Sent(s, o)
    ensures var p := Stamped(s, o);
            var i := o.symbolId;
            && p == o.(id := p.id) && p.id >= s.nextId > 0 && i < NUM_SYMBOLS && StateOk(s) && p.Kind() == o.Kind()
            && Ready(s.books[i], i, s.accounts, p)
            && Lock(s.accounts, p) == Lock(s.accounts, o)
            && Out(s, o, clientId) == Submit(s.books[i], p, clientId)
            && Out(s, o, clientId).book.orderSeq == Max(s.books[i].orderSeq, p.id + 1)
  {
    hide Wf, Flat, TotalUsd, TotalAsset;
    LockEffect(s.accounts, o);
    var i := o.symbolId;
    assert BookOk(s.books[i], i, s.nextId, s.accounts);
    IdsBelowSeq(s.books[i]);
    SubmitSeq(s.books[i], Stamped(s, o), clientId);
  }

  lemma IdsBelowSeq(b: Book)
    requires Wf(b)
    ensures forall r :: r in Orders(b) ==> r.order.id < b.orderSeq
  {
  }

  lemma SubmitSeq(b: Book, o: Order, clientId: nat)
    requires o.id != 0
    ensures Submit(b, o, clientId).book.orderSeq == Max(b.orderSeq, o.id + 1)
  {
    hide MatchSide, HasPrice, Place, Flat;
  }

  // The state after a submission that was locked.
  lemma LiveIs(s: State, o: Order, clientId: nat)
    requires Sent(s, o)
    ensures var p := Stamped(s, o);
            var out := Out(s, o, clientId);
            var locked := Lock(s.accounts, o).0;
            var (t, log) := LiveStep(s, o, clientId);
            && log == [p]
            && t.books == s.books[o.symbolId := out.book] && t.nextId == p.id + 1
            && t.accounts == match out.result
               case Ok(report) => AfterMatch(locked, p, report, out.trades)
               case Err(_) => UnlockOrder(locked, p, p.qty)
  {
    hide Process, Lock, SysOk, AfterMatch, UnlockOrder, AccountsOk;
    StampedFacts(s, o, clientId);
    var p := Stamped(s, o);
    assert EngineStamp(p.id, p) == p;
  }

  lemma {:induction false} NewBookOk(s: State, o: Order, clientId: nat)
    requires Sent(s, o)
    ensures BookOk(Out(s, o, clientId).book, o.symbolId, Stamped(s, o).id + 1, s.accounts)
  {
    hide Wf, Flat, Submit, TotalUsd, TotalAsset;
    StampedFacts(s, o, clientId);
    var i, p := o.symbolId, Stamped(s, o);
    assert BookOk(s.books[i], i, s.nextId, s.accounts);
    SubmitKeepsWf(s.books[i], p, clientId);
    SubmitAccepted(s.books[i], i, s.accounts, p, clientId);
  }

  // The makers of the other side have locked what they trade away.
  lemma {:induction false} SubmissionHolds(s: State, o: Order, clientId: nat)
    requires Live(s, o) && Out(s, o, clientId).result.Ok?
    ensures var out := Out(s, o, clientId);
            && Submission(s.accounts, Stamped(s, o), out.result.value.remainingQty, out.trades)
            && MakersCovered(s.accounts, out.trades, Stamped(s, o))
  {
    hide Wf, Flat, Over, Traded, Value, Amount, MatchSide, Rest, TotalUsd, TotalAsset, Lock;
    StampedFacts(s, o, clientId);
    var i, p := o.symbolId, Stamped(s, o);
    var b := s.books[i];
    SweptTradesOk(b, i, s.accounts, p, clientId);
    SweptQuantity(b, i, s.accounts, p, clientId);
    forall u | u in s.accounts
      ensures if p.side == 0 then Over(Swept(b, p, clientId).trades, MakerQtyOf(u)) <= s.accounts[u].assetLocked[i]
              else Over(Swept(b, p, clientId).trades, MakerUsdOf(u)) <= s.accounts[u].usdLocked
    {
      SweptExposure(b, i, s.accounts, p, clientId, u);
      assert AccountMatches(s, u);
    }
  }

  // How much a command refunds twice, and what its owner had locked beside it.
  function Surplus(s: State, o: Order, clientId: nat): nat
    requires StateOk(s)
  {
    if o.Kind() == Cancel || o.symbolId >= NUM_SYMBOLS || Lock(s.accounts, o).1.Err? then 0
    else
      var out := Out(s, o, clientId);
      if out.result.Ok? then Max0(DoubleRefund(Stamped(s, o), out.result.value, out.trades)) else 0
  }

  function OwnLocked(s: State, o: Order): nat {
    if o.userId in s.accounts then s.accounts[o.userId].usdLocked else 0
  }

  ghost predicate SameButSurplus(s: State, t: State, o: Order, surplus: nat)
  {
    && t.accounts.Keys == s.accounts.Keys
    && (forall a :: TotalAsset(t.accounts, a) == TotalAsset(s.accounts, a))
    && TotalUsd(t.accounts) == TotalUsd(s.accounts) + SatSub(surplus, OwnLocked(s, o))
  }

  // An account after a step: its locks match its exposure but for a surplus of its own command.
  ghost predicate MatchesBut(t: State, u: nat, o: Order, surplus: nat)
    requires StateOk(t) && u in t.accounts
  {
    && t.accounts[u].usdLocked ==
         (if u == o.userId then SatSub(UsdExposure(t.books, u), surplus) else UsdExposure(t.books, u))
    && forall i :: 0 <= i < NUM_SYMBOLS ==> t.accounts[u].assetLocked[i] == Amount(Flat(t.books[i].asks), u)
  }

  lemma {:induction false} AcceptedStep(s: State, o: Order, clientId: nat)
    requires Live(s, o) && Out(s, o, clientId).result.Ok?
    ensures var t := LiveStep(s, o, clientId).0;
            && SysOk(t) && SameButSurplus(s, t, o, Surplus(s, o, clientId))
            && forall u {:trigger t.accounts[u]} :: u in t.accounts ==> MatchesBut(t, u, o, Surplus(s, o, clientId))
  {
    hide Wf, Flat, Over, Traded, Value, Amount, MatchSide, Submit, Process, TotalUsd, TotalAsset, Lock;
    hide AfterMatch, LiveStep, UsdExposure, DoubleRefund, Improvement;
    StampedFacts(s, o, clientId);
    LiveIs(s, o, clientId);
    NewBookOk(s, o, clientId);
    SubmissionHolds(s, o, clientId);
    var i, p, out := o.symbolId, Stamped(s, o), Out(s, o, clientId);
    var report := out.result.value;
    AfterMatchIs(s.accounts, p, report, out.trades);
    var t := LiveStep(s, o, clientId).0;
    BooksStay(s, i, out.book, p.id + 1, t.accounts);
    forall u | u in t.accounts ensures MatchesBut(t, u, o, Surplus(s, o, clientId)) {
      AccountStep(s, o, clientId, t, u);
    }
  }

  lemma {:induction false} AccountStep(s: State, o: Order, clientId: nat, t: State, u: nat)
    requires Live(s, o) && Out(s, o, clientId).result.Ok? && u in s.accounts
    requires StateOk(t) && t.accounts.Keys == s.accounts.Keys
    requires t.books == s.books[o.symbolId := Out(s, o, clientId).book]
    requires var p, out := Stamped(s, o), Out(s, o, clientId);
             Balances(s.accounts[u], t.accounts[u], p, out.result.value, out.trades, u)
    ensures MatchesBut(t, u, o, Surplus(s, o, clientId))
  {
    hide Wf, Flat, Over, Traded, Value, Amount, MatchSide, Submit;
    hide Process, TotalUsd, TotalAsset, Lock, DoubleRefund, Improvement, BookOk;
    StampedFacts(s, o, clientId);
    var i, p, out := o.symbolId, Stamped(s, o), Out(s, o, clientId);
    assert AccountMatches(s, u) by { assert s.accounts[u] == s.accounts[u]; }
    SubmitExposure(s.books[i], i, s.accounts, p, clientId, u);
    ExposureUpdate(s.books, i, out.book, u);
    ZeroRefund(p, out.result.value, out.trades);
  }

  lemma ZeroRefund(o: Order, report: ExecutionReport, ts: seq<Trade>)
    ensures o.side != 0 || o.Kind() != Market ==> DoubleRefund(o, report, ts) == 0
    ensures o.Kind() == Market ==> Kept(o, report) == 0
    ensures o.price * 0 == 0
  {
  }

  // Unlocking right after locking gives everything back.
  lemma LockThenUnlock(accounts: Accounts, o: Order, id: nat)
    requires AccountsOk(accounts) && o.Kind() != Cancel && o.side < 2 && Lock(accounts, o).1.Ok?
    ensures UnlockOrder(Lock(accounts, o).0, o.(id := id), o.qty) == accounts
  {
    LockEffect(accounts, o);
    var a := accounts[o.userId];
    var locked := Lock(accounts, o).0;
    UnlockEffect(locked, o.userId, o.symbolId, o.side == 0, o.price, o.qty);
    assert UnlockedBy(LockedBy(a, o), o.side == 0, o.symbolId, o.price, o.qty) == a by { WithSame(a, o.symbolId); }
    assert accounts[o.userId := LockedBy(a, o)][o.userId := a] == accounts;
  }

  // A submission the engine refuses changes no account and no resting order.
  lemma {:induction false} RefusedStep(s: State, o: Order, clientId: nat)
    requires Live(s, o) && Out(s, o, clientId).result.Err?
    ensures var (t, log) := LiveStep(s, o, clientId);
            var b := s.books[o.symbolId];
            && SysOk(t) && LocksMatch(t) && t.accounts == s.accounts && Surplus(s, o, clientId) == 0
            && Out(s, o, clientId).result.error == EngineFull
            && t.books == s.books[o.symbolId :=
                 b.(orderSeq := Max(b.orderSeq, t.nextId), leaked := t.books[o.symbolId].leaked)]
  {
    hide Wf, Flat, Value, Amount, MatchSide, Submit, Process, TotalUsd;
    hide TotalAsset, Lock, Unlock, AfterMatch, LiveStep, DoubleRefund, NoSlot;
    StampedFacts(s, o, clientId);
    LiveIs(s, o, clientId);
    NewBookOk(s, o, clientId);
    var i, p, out := o.symbolId, Stamped(s, o), Out(s, o, clientId);
    RefusalChangesNothing(s.books[i], p, clientId);
    LockThenUnlock(s.accounts, o, p.id);
    var t := LiveStep(s, o, clientId).0;
    BooksStay(s, i, out.book, p.id + 1, s.accounts);
    forall u | u in t.accounts ensures AccountMatches(t, u) {
      assert AccountMatches(s, u) by { assert s.accounts[u] == s.accounts[u]; }
      ExposureUpdate(s.books, i, out.book, u);
    }
  }

  // ----- Every command ----------------------------------------------------------------------------

  // Whatever the command, the system stays well formed, assets are conserved, and USD and locks differ
  // from conservation and from exposure by exactly the command's surplus.
  lemma {:induction false} LiveStepAccounts(s: State, o: Order, clientId: nat)
    requires SysOk(s) && LocksMatch(s) && Command(s, o)
    ensures var t := LiveStep(s, o, clientId).0;
            && SysOk(t) && SameButSurplus(s, t, o, Surplus(s, o, clientId))
            && forall u {:trigger t.accounts[u]} :: u in t.accounts ==> MatchesBut(t, u, o, Surplus(s, o, clientId))
  {
    hide Wf, BookOk, UsdExposure, CancelStep, Out, Lock, TotalUsd, TotalAsset, SubmitStep;
    var t := LiveStep(s, o, clientId).0;
    if o.Kind() == Cancel {
      CancelStepKeeps(s, o);
      MatchesAll(t, o);
    } else if Lock(s.accounts, o).1.Err? {
      MatchesAll(t, o);
    } else {
      StampedFacts(s, o, clientId);
      if Out(s, o, clientId).result.Ok? {
        AcceptedStep(s, o, clientId);
      } else {
        RefusedStep(s, o, clientId);
        MatchesAll(t, o);
      }
    }
  }

  lemma MatchesAll(t: State, o: Order)
    requires StateOk(t) && LocksMatch(t)
    ensures forall u {:trigger t.accounts[u]} :: u in t.accounts ==> MatchesBut(t, u, o, 0)
  {
    hide UsdExposure;
    forall u | u in t.accounts ensures MatchesBut(t, u, o, 0) {
      assert AccountMatches(t, u) by { assert t.accounts[u] == t.accounts[u]; }
    }
  }

  // ----- Books stay well formed whatever the accounts hold ------------------------------------------

  lemma {:induction false} SettleKeys(accounts: Accounts, ts: seq<Trade>, price: nat)
    requires AccountsOk(accounts)
    ensures SettleAll(accounts, ts, price).Keys == accounts.Keys
    decreases |ts|
  {
    if ts != [] { SettleKeys(accounts, ts[..|ts| - 1], price); }
  }

  lemma AfterMatchKeys(accounts: Accounts, o: Order, report: ExecutionReport, ts: seq<Trade>)
    requires AccountsOk(accounts)
    ensures AfterMatch(accounts, o, report, ts).Keys == accounts.Keys
  {
    hide SettleAll, With, Over;
    SettleKeys(accounts, ts, o.price);
  }

  lemma {:induction false} CancelKeepsBooks(s: State, o: Order)
    requires SysOk(s)
    ensures SysOk(CancelStep(s, o).0) && CancelStep(s, o).0.accounts.Keys == s.accounts.Keys
  {
    hide Wf, Flat, Value, Amount, CancelOrder, With;
    var i := o.symbolId;
    if i < NUM_SYMBOLS {
      var b := s.books[i];
      assert BookOk(b, i, s.nextId, s.accounts);
      var (c, r) := CancelOrder(b, o.userId, o.id);
      var k := CancelIsExact(b, o.userId, o.id);
      CancelSeq(b, o.userId, o.id);
      if r.Err? {
        assert s.books[i := b] == s.books;
      } else {
        CancelExposure(b, o.userId, o.id, o.userId);
        var accounts := UnlockOrder(s.accounts, r.value, r.value.qty);
        assert accounts.Keys == s.accounts.Keys;
        assert Accepted(c, i, accounts);
        BooksStay(s, i, c, s.nextId, accounts);
      }
    }
  }

  lemma UnlockKeys(accounts: Accounts, o: Order, qty: nat)
    requires AccountsOk(accounts)
    ensures UnlockOrder(accounts, o, qty).Keys == accounts.Keys
  {
  }

  // After any admitted command all three books are well formed and uncrossed, even if funds are not as
  // they should be.
  lemma {:induction false} LiveStepBooks(s: State, o: Order, clientId: nat)
    requires SysOk(s) && Command(s, o)
    ensures SysOk(LiveStep(s, o, clientId).0)
  {
    hide Wf, BookOk, CancelStep, Out, Lock, AfterMatch, UnlockOrder;
    if o.Kind() == Cancel {
      CancelKeepsBooks(s, o);
    } else if Lock(s.accounts, o).1.Ok? {
      LockEffect(s.accounts, o);
      LiveIs(s, o, clientId);
      NewBookOk(s, o, clientId);
      var p, out, locked := Stamped(s, o), Out(s, o, clientId), Lock(s.accounts, o).0;
      var t := LiveStep(s, o, clientId).0;
      if out.result.Ok? {
        AfterMatchKeys(locked, p, out.result.value, out.trades);
      } else {
        UnlockKeys(locked, p, p.qty);
      }
      SameAccepted(out.book, o.symbolId, p.id + 1, s.accounts, t.accounts);
      BooksStay(s, o.symbolId, out.book, p.id + 1, t.accounts);
    }
  }

  lemma SameAccepted(b: Book, i: nat, nextId: nat, before: Accounts, after: Accounts)
    requires BookOk(b, i, nextId, before) && before.Keys == after.Keys
    ensures BookOk(b, i, nextId, after)
  {
    hide Wf, Flat;
  }

  // A submission leaves the state and the log as they are exactly when it cannot be afforded.
  lemma LetInExactlyWhen(s: State, o: Order, clientId: nat)
    requires StateOk(s) && o.Kind() != Cancel
    ensures LiveStep(s, o, clientId) == (s, []) <==> !Affordable(s.accounts, o)
  {
    hide Lock, Affordable, SubmitStep;
    LockAnswers(s.accounts, o);
  }

  // A cancel does so exactly when it names no live order of its user, by its id; otherwise it is logged.
  lemma {:induction false} CancelledExactlyWhen(s: State, o: Order, clientId: nat)
    requires SysOk(s) && o.Kind() == Cancel
    ensures var done := o.symbolId < 3 && Cancellable(s.books[o.symbolId], o.userId, o.id);
            if done then LiveStep(s, o, clientId).1 == [o] else LiveStep(s, o, clientId) == (s, [])
  {
    hide Wf, Flat, CancelOrder, UnlockOrder;
    if o.symbolId < NUM_SYMBOLS {
      var b := s.books[o.symbolId];
      assert BookOk(b, o.symbolId, s.nextId, s.accounts);
      var k := CancelIsExact(b, o.userId, o.id);
      assert s.books[o.symbolId := b] == s.books;
    }
  }

  // Locks stay equal to exposure, and USD stays conserved, exactly when the surplus is harmless.
  lemma {:induction false} StepIsClean(s: State, o: Order, clientId: nat)
    requires SysOk(s) && LocksMatch(s) && Command(s, o)
    ensures var t := LiveStep(s, o, clientId).0;
            var surplus := Surplus(s, o, clientId);
            && StateOk(t)
            && (LocksMatch(t) <==> surplus == 0 || UsdExposure(t.books, o.userId) == 0)
            && (TotalUsd(t.accounts) == TotalUsd(s.accounts) <==> surplus <= OwnLocked(s, o))
            && (forall a :: TotalAsset(t.accounts, a) == TotalAsset(s.accounts, a))
  {
    hide Wf, BookOk, UsdExposure, LiveStep, Surplus, TotalUsd, TotalAsset;
    LiveStepAccounts(s, o, clientId);
    var t, surplus := LiveStep(s, o, clientId).0, Surplus(s, o, clientId);
    if surplus == 0 || UsdExposure(t.books, o.userId) == 0 {
      forall u | u in t.accounts ensures AccountMatches(t, u) {
        assert t.accounts[u] == t.accounts[u];
        assert MatchesBut(t, u, o, surplus);
      }
    } else {
      SurplusOwner(s, o, clientId);
      assert t.accounts[o.userId] == t.accounts[o.userId];
      assert MatchesBut(t, o.userId, o, surplus);
      assert !AccountMatches(t, o.userId);
    }
  }

  lemma SurplusOwner(s: State, o: Order, clientId: nat)
    requires StateOk(s) && Surplus(s, o, clientId) > 0
    ensures o.userId in s.accounts
  {
    hide Out;
    LockEffect(s.accounts, o);
  }
}
