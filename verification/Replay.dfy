/** Replaying the log rebuilds the state of the live loop. A replayed order has no connection, so states
    are compared after erasing the connection ids that resting orders remember. */
module Replay {
  import opened Types
  import opened Matcher
  import opened Risk
  import opened Ledger
  import opened Exposure
  import opened Exchange
  import opened Margin
  import opened BookEffects
  import opened Reports
  import opened Accounting

  // ----- Erasing connections ----------------------------------------------------------------------

  function EraseOne(r: Resting): Resting { r.(clientId := 0) }

  function EraseQueue(q: seq<Resting>): seq<Resting> { seq(|q|, i requires 0 <= i < |q| => EraseOne(q[i])) }

  function EraseLevel(l: Level): Level { l.(orders := EraseQueue(l.orders)) }

  function EraseSide(levels: seq<Level>): seq<Level> {
    seq(|levels|, i requires 0 <= i < |levels| => EraseLevel(levels[i]))
  }

  function EraseTrade(t: Trade): Trade { t.(makerClientId := 0, takerClientId := 0) }

  function EraseTrades(ts: seq<Trade>): seq<Trade> { seq(|ts|, i requires 0 <= i < |ts| => EraseTrade(ts[i])) }

  function EraseBook(b: Book): Book { b.(bids := EraseSide(b.bids), asks := EraseSide(b.asks)) }

  function EraseBooks(books: seq<Book>): seq<Book> { seq(|books|, i requires 0 <= i < |books| => EraseBook(books[i])) }

  function EraseState(s: State): State { s.(books := EraseBooks(s.books)) }

  lemma EraseConcat(a: seq<Resting>, b: seq<Resting>)
    ensures EraseQueue(a + b) == EraseQueue(a) + EraseQueue(b)
  {
  }

  lemma EraseTail(q: seq<Resting>)
    requires q != []
    ensures EraseQueue(q)[0] == EraseOne(q[0]) && EraseQueue(q)[1..] == EraseQueue(q[1..])
    ensures EraseQueue(q) == [EraseOne(q[0])] + EraseQueue(q[1..])
  {
  }

  lemma EraseCons(r: Resting, q: seq<Resting>)
    ensures EraseQueue([r] + q) == [EraseOne(r)] + EraseQueue(q)
  {
    EraseTail([r] + q);
    assert ([r] + q)[1..] == q;
  }

  lemma EraseSideTail(levels: seq<Level>)
    requires levels != []
    ensures EraseSide(levels)[0] == EraseLevel(levels[0]) && EraseSide(levels)[1..] == EraseSide(levels[1..])
  {
  }

  lemma EraseSideCons(l: Level, levels: seq<Level>)
    ensures EraseSide([l] + levels) == [EraseLevel(l)] + EraseSide(levels)
  {
    EraseSideTail([l] + levels);
    assert ([l] + levels)[1..] == levels;
    assert EraseSide([l] + levels) == [EraseSide([l] + levels)[0]] + EraseSide([l] + levels)[1..];
  }

  lemma EraseTradesConcat(a: seq<Trade>, b: seq<Trade>)
    ensures EraseTrades(a + b) == EraseTrades(a) + EraseTrades(b)
  {
  }

  lemma EraseTradesCons(t: Trade, ts: seq<Trade>)
    ensures EraseTrades([t] + ts) == [EraseTrade(t)] + EraseTrades(ts)
  {
  }

  lemma {:induction false} EraseFlat(levels: seq<Level>)
    ensures Flat(EraseSide(levels)) == EraseQueue(Flat(levels))
  {
    if levels != [] {
      EraseSideTail(levels);
      EraseFlat(levels[1..]);
      EraseConcat(levels[0].orders, Flat(levels[1..]));
    }
  }

  // ----- Matching does not look at connections ----------------------------------------------------

  function EraseFill(f: Fill): Fill { f.(queue := EraseQueue(f.queue), trades := EraseTrades(f.trades)) }

  lemma {:induction false} QueueErased(o: Order, qty: nat, clientId: nat, q: seq<Resting>, clients: map<ClientKey, nat>,
                                       tid: nat)
    ensures MatchQueue(o, qty, 0, EraseQueue(q), clients, tid) ==
            EraseFill(MatchQueue(o, qty, clientId, q, clients, tid))
    decreases |q|
  {
    hide EraseQueue, EraseTrades;
    NothingErased();
    if q != [] && qty > 0 {
      EraseTail(q);
      var fill := Min(qty, q[0].order.qty);
      var t := MakeTrade(o, clientId, q[0], fill, tid);
      if fill == q[0].order.qty {
        var rest := clients - {KeyOf(q[0])};
        QueueErased(o, qty - fill, clientId, q[1..], rest, tid + 1);
        EraseTradesCons(t, MatchQueue(o, qty - fill, clientId, q[1..], rest, tid + 1).trades);
      } else {
        EraseCons(Reduced(q[0], fill), q[1..]);
        assert [t] + [] == [t];
        EraseTradesCons(t, []);
        assert [EraseTrade(t)] + [] == [EraseTrade(t)];
      }
    } else {
      ErasedLength(q);
    }
  }

  lemma NothingErased()
    ensures EraseQueue([]) == [] && EraseSide([]) == [] && EraseTrades([]) == []
  {
  }

  lemma ErasedLength(q: seq<Resting>)
    ensures |EraseQueue(q)| == |q|
  {
  }

  lemma ErasedTrades(ts: seq<Trade>)
    ensures |EraseTrades(ts)| == |ts|
  {
  }

  function EraseSweep(s: Sweep): Sweep { s.(levels := EraseSide(s.levels), trades := EraseTrades(s.trades)) }

  lemma {:induction false} SideErased(o: Order, qty: nat, clientId: nat, levels: seq<Level>,
                                      clients: map<ClientKey, nat>, tid: nat)
    ensures MatchSide(o, qty, 0, EraseSide(levels), clients, tid) ==
            EraseSweep(MatchSide(o, qty, clientId, levels, clients, tid))
    decreases |levels|
  {
    hide EraseQueue, EraseTrades, MatchQueue, Crosses;
    NothingErased();
    if levels != [] && qty > 0 {
      EraseSideTail(levels);
      var f := MatchQueue(o, qty, clientId, levels[0].orders, clients, tid);
      QueueErased(o, qty, clientId, levels[0].orders, clients, tid);
      ErasedLength(f.queue);
      ErasedTrades(f.trades);
      if Crosses(o, levels[0].price) {
        if f.queue == [] {
          var s := MatchSide(o, f.left, clientId, levels[1..], f.clients, tid + |f.trades|);
          SideErased(o, f.left, clientId, levels[1..], f.clients, tid + |f.trades|);
          EraseTradesConcat(f.trades, s.trades);
        } else {
          EraseSideCons(levels[0].(orders := f.queue), levels[1..]);
        }
      }
    }
  }

  lemma {:induction false} PlaceErased(levels: seq<Level>, r: Resting, isSell: bool)
    ensures Place(EraseSide(levels), EraseOne(r), isSell) == EraseSide(Place(levels, r, isSell))
  {
    hide EraseQueue;
    NothingErased();
    EraseCons(r, []);
    assert [r] + [] == [r] && [EraseOne(r)] + [] == [EraseOne(r)];
    EraseSideCons(Level(r.order.price, [r]), levels);
    if levels != [] {
      EraseSideTail(levels);
      EraseConcat(levels[0].orders, [r]);
      EraseSideCons(levels[0].(orders := levels[0].orders + [r]), levels[1..]);
      EraseSideCons(levels[0], Place(levels[1..], r, isSell));
      PlaceErased(levels[1..], r, isSell);
    }
  }

  lemma SizesErased(b: Book)
    ensures OrderCount(EraseBook(b)) == OrderCount(b) && LevelCount(EraseBook(b)) == LevelCount(b)
    ensures forall p :: (HasPrice(EraseSide(b.bids), p) <==> HasPrice(b.bids, p))
                        && (HasPrice(EraseSide(b.asks), p) <==> HasPrice(b.asks, p))
  {
    EraseFlat(b.bids);
    EraseFlat(b.asks);
    PricesErased(b.bids);
    PricesErased(b.asks);
  }

  lemma PricesErased(levels: seq<Level>)
    ensures forall p :: HasPrice(EraseSide(levels), p) <==> HasPrice(levels, p)
  {
    forall p ensures HasPrice(EraseSide(levels), p) <==> HasPrice(levels, p) {
      if i :| 0 <= i < |levels| && levels[i].price == p { assert EraseSide(levels)[i].price == p; }
      if i :| 0 <= i < |levels| && EraseSide(levels)[i].price == p { assert levels[i].price == p; }
    }
  }

  lemma RestErased(b: Book, r: Resting)
    ensures Rest(EraseBook(b), EraseOne(r)) == (EraseBook(Rest(b, r).0), Rest(b, r).1)
  {
    hide EraseSide, Place, HasPrice, Flat;
    SizesErased(b);
    hide OrderCount, LevelCount;
    PlaceErased(b.bids, r, false);
    PlaceErased(b.asks, r, true);
  }

  function EraseOutcome(o: Outcome): Outcome { o.(book := EraseBook(o.book), trades := EraseTrades(o.trades)) }

  lemma SubmitErased(b: Book, o: Order, clientId: nat)
    ensures Submit(EraseBook(b), o, 0) == EraseOutcome(Submit(b, o, clientId))
  {
    hide EraseSide, EraseTrades, MatchSide, Rest;
    var stamped := Stamp(b, o);
    var s := Swept(b, stamped, clientId);
    SideErased(stamped, o.qty, clientId, if o.IsSell() then b.bids else b.asks, b.clients, b.tradeSeq);
    ErasedTrades(s.trades);
    var c := AfterSweep(b.(orderSeq := StampedSeq(b, o)), o.IsSell(), s);
    RestErased(c, Resting(stamped.(qty := s.left), clientId));
  }

  // ----- Cancelling does not look at connections --------------------------------------------------

  function EraseFound(r: Option<Resting>): Option<Resting> {
    match r
    case Some(x) => Some(EraseOne(x))
    case None => None
  }

  lemma {:induction false} FindErased(q: seq<Resting>, id: nat)
    ensures FindIn(EraseQueue(q), id) == EraseFound(FindIn(q, id))
    ensures DeleteFrom(EraseQueue(q), id) == EraseQueue(DeleteFrom(q, id))
  {
    hide EraseQueue;
    NothingErased();
    if q != [] {
      EraseTail(q);
      FindErased(q[1..], id);
      EraseCons(q[0], DeleteFrom(q[1..], id));
    }
  }

  lemma {:induction false} DeleteErased(levels: seq<Level>, id: nat)
    ensures Delete(EraseSide(levels), id) == EraseSide(Delete(levels, id))
  {
    hide EraseQueue, FindIn, DeleteFrom;
    NothingErased();
    if levels != [] {
      EraseSideTail(levels);
      var q := DeleteFrom(levels[0].orders, id);
      FindErased(levels[0].orders, id);
      ErasedLength(q);
      EraseSideCons(levels[0].(orders := q), levels[1..]);
      EraseSideCons(levels[0], Delete(levels[1..], id));
      DeleteErased(levels[1..], id);
    }
  }

  lemma CancelErased(b: Book, userId: nat, id: nat)
    ensures CancelOrder(EraseBook(b), userId, id) ==
            (EraseBook(CancelOrder(b, userId, id).0), CancelOrder(b, userId, id).1)
  {
    hide EraseSide, EraseQueue, Delete, FindIn, Flat;
    EraseFlat(b.bids);
    EraseFlat(b.asks);
    EraseConcat(Flat(b.bids), Flat(b.asks));
    FindErased(Orders(b), id);
    if (userId, id) in b.clients { FindErased(Orders(b), b.clients[(userId, id)]); }
    var loc := Locate(b, userId, id);
    assert Locate(EraseBook(b), userId, id) == EraseFound(loc);
    if loc.Some? {
      DeleteErased(b.bids, loc.value.order.id);
      DeleteErased(b.asks, loc.value.order.id);
    }
  }

  // ----- Settlement does not look at connections --------------------------------------------------

  lemma {:induction false} SettleErased(accounts: Accounts, ts: seq<Trade>, price: nat)
    requires AccountsOk(accounts)
    ensures SettleAll(accounts, EraseTrades(ts), price) == SettleAll(accounts, ts, price)
    decreases |ts|
  {
    hide Settle;
    if ts != [] {
      SettleErased(accounts, ts[..|ts| - 1], price);
      assert EraseTrades(ts)[..|ts| - 1] == EraseTrades(ts[..|ts| - 1]);
      OneErased(SettleAll(accounts, ts[..|ts| - 1], price), ts[|ts| - 1], price);
    }
  }

  lemma OneErased(accounts: Accounts, t: Trade, price: nat)
    requires AccountsOk(accounts)
    ensures Settle(accounts, EraseTrade(t), price) == Settle(accounts, t, price)
  {
    hide With;
  }

  lemma {:induction false} OverErased(ts: seq<Trade>, f: Trade -> nat)
    requires forall t :: f(EraseTrade(t)) == f(t)
    ensures Over(EraseTrades(ts), f) == Over(ts, f)
    decreases |ts|
  {
    if ts != [] {
      OverErased(ts[..|ts| - 1], f);
      assert EraseTrades(ts)[..|ts| - 1] == EraseTrades(ts[..|ts| - 1]);
    }
  }

  lemma AfterMatchErased(accounts: Accounts, o: Order, report: ExecutionReport, ts: seq<Trade>)
    requires AccountsOk(accounts)
    ensures AfterMatch(accounts, o, report, EraseTrades(ts)) == AfterMatch(accounts, o, report, ts)
  {
    hide SettleAll, EraseTrades, Unlock, Refund;
    SettleErased(accounts, ts, o.price);
    OverErased(ts, QtyOf());
    OverErased(ts, SatCostOf());
  }

  // ----- One command ------------------------------------------------------------------------------

  lemma EraseAt(books: seq<Book>, i: nat, b: Book)
    requires i < |books|
    ensures EraseBooks(books[i := b]) == EraseBooks(books)[i := EraseBook(b)]
  {
  }

  lemma CancelReplayed(s: State, o: Order)
    requires StateOk(s)
    ensures var (t, done) := CancelStep(s, o);
            && StateOk(EraseState(s)) && CancelStep(EraseState(s), o) == (EraseState(t), done) && (!done ==> t == s)
  {
    hide CancelOrder, EraseBook, UnlockOrder;
    if o.symbolId < NUM_SYMBOLS {
      var b := s.books[o.symbolId];
      CancelErased(b, o.userId, o.id);
      EraseAt(s.books, o.symbolId, CancelOrder(b, o.userId, o.id).0);
      if CancelOrder(b, o.userId, o.id).1.Err? {
        FailedCancel(b, o.userId, o.id);
        assert s.books[o.symbolId := b] == s.books;
      }
    } else {
      assert EraseState(s).(books := EraseState(s).books) == EraseState(s);
    }
  }

  lemma FailedCancel(b: Book, userId: nat, id: nat)
    requires CancelOrder(b, userId, id).1.Err?
    ensures CancelOrder(b, userId, id).0 == b
  {
  }

  // The same submission in both worlds; only the live loop unlocks the funds of a refused one.
  lemma SubmitReplayed(s: State, o: Order, clientId: nat, unlock: bool)
    requires StateOk(s)
    requires o.Kind() != Cancel
    ensures var (books, nextId, r, ts) := EngineProcess(s.books, s.nextId, o, clientId);
            && EngineProcess(EraseBooks(s.books), s.nextId, o, 0) == (EraseBooks(books), nextId, r, EraseTrades(ts))
            && StateOk(EraseState(s))
            && (r.Ok? ==> SubmitStep(EraseState(s), o, 0, unlock) == EraseState(SubmitStep(s, o, clientId, true)))
  {
    hide Submit, EraseBook, EraseTrades, AfterMatch, UnlockOrder;
    if o.symbolId < NUM_SYMBOLS {
      var b := s.books[o.symbolId];
      SubmitErased(b, EngineStamp(s.nextId, o), clientId);
      EraseAt(s.books, o.symbolId, Submit(b, EngineStamp(s.nextId, o), clientId).book);
      var (books, nextId, r, ts) := EngineProcess(s.books, s.nextId, o, clientId);
      if r.Ok? { AfterMatchErased(s.accounts, o, r.value, ts); }
    } else {
      NothingErased();
    }
  }

  // The engine refused the command after its funds were locked.
  ghost predicate Refused(s: State, o: Order, clientId: nat)
    requires StateOk(s)
  {
    && o.Kind() != Cancel && Lock(s.accounts, o).1.Ok?
    && EngineProcess(s.books, s.nextId, LiveStamp(s, o).0, clientId).2.Err?
  }

  // A logged command, replayed, does what it did live, exactly when the engine did not refuse it. A
  // command that is not logged changed nothing.
  lemma ReplayIsLive(s: State, o: Order, clientId: nat)
    requires StateOk(s) && s.nextId > 0 && o.Kind() != OrderType.Deposit && (o.Kind() != Cancel ==> o.side < 2)
    ensures var (t, log) := LiveStep(s, o, clientId);
            && StateOk(t) && t.nextId > 0 && StateOk(EraseState(s)) && |log| <= 1
            && (log == [] ==> t == s && !Refused(s, o, clientId))
            && (log != [] ==> (ReplayStep(EraseState(s), log[0]) == EraseState(t) <==> !Refused(s, o, clientId)))
  {
    hide CancelStep, EngineProcess, EraseBooks, Lock, AfterMatch, UnlockOrder;
    if o.Kind() == Cancel {
      CancelReplayed(s, o);
      CancelSymbol(s, o);
    } else if Lock(s.accounts, o).1.Ok? {
      LockEffect(s.accounts, o);
      SubmissionReplayed(s, o, clientId);
    } else {
      ErasedOk(s);
    }
  }

  lemma ErasedOk(s: State)
    requires StateOk(s)
    ensures StateOk(EraseState(s))
  {
  }

  // Not so an order of type deposit, which the live loop takes for a submission: its funds are locked and it
  // is logged, and replay takes it for a deposit. Without an id of its own it is never rebuilt.
  lemma DepositNotRebuilt(s: State, o: Order, clientId: nat)
    requires StateOk(s) && o.Kind() == OrderType.Deposit && o.id == 0 && Lock(s.accounts, o).1.Ok?
    ensures var (t, log) := LiveStep(s, o, clientId);
            && StateOk(EraseState(s)) && |log| == 1
            && ReplayStep(EraseState(s), log[0]) ==
                 EraseState(s).(accounts := Deposited(s.accounts, o.userId, o.price, o.symbolId, o.qty))
            && t.nextId > s.nextId && ReplayStep(EraseState(s), log[0]) != EraseState(t)
  {
    hide Process, Lock, AfterMatch, UnlockOrder, Deposited, EraseBook;
    ErasedOk(s);
    LockEffect(s.accounts, o);
  }

  lemma CancelSymbol(s: State, o: Order)
    requires StateOk(s)
    ensures CancelStep(s, o).1 ==> o.symbolId < NUM_SYMBOLS
    ensures CancelStep(s, o).0.nextId == s.nextId && StateOk(CancelStep(s, o).0)
  {
  }

  lemma SubmissionReplayed(s: State, o: Order, clientId: nat)
    requires StateOk(s) && s.nextId > 0 && o.Kind() != OrderType.Deposit && o.Kind() != Cancel && o.side < 2
    requires Lock(s.accounts, o).1.Ok?
    ensures var (t, log) := LiveStep(s, o, clientId);
            && StateOk(t) && t.nextId > 0 && StateOk(EraseState(s)) && |log| == 1
            && (ReplayStep(EraseState(s), log[0]) == EraseState(t) <==> !Refused(s, o, clientId))
  {
    hide CancelStep, Process, EraseBooks, Lock, AfterMatch, UnlockOrder, EraseTrades;
    var (p, s1) := LiveStamp(s, o);
    var accounts := Lock(s.accounts, o).0;
    LockEffect(s.accounts, o);
    SameLock(s.accounts, o, p.id);
    var live := s1.(accounts := accounts);
    SubmitReplayed(live, p, clientId, false);
    CounterIs(s, o);
    if Refused(s, o, clientId) {
      LockThenUnlock(s.accounts, o, p.id);
      LockMoves(s.accounts, o);
    }
  }

  // A caller can tell beforehand: a limit order that does not cross the best opposite level needs a
  // slot that is not there.
  lemma RefusedExactlyWhen(s: State, o: Order, clientId: nat)
    requires SysOk(s) && Command(s, o)
    ensures Refused(s, o, clientId) <==>
            && o.Kind() == Limit && Lock(s.accounts, o).1.Ok? && o.symbolId < NUM_SYMBOLS
            && NoSlot(s.books[o.symbolId], o) && MissesBest(s.books[o.symbolId], o)
  {
    hide Wf, BookOk, Flat, Lock, Submit, Process, NoSlot, MissesBest;
    if o.Kind() != Cancel && Lock(s.accounts, o).1.Ok? {
      StampedFacts(s, o, clientId);
      var p, b := Stamped(s, o), s.books[o.symbolId];
      RefusedOnBook(b, p, clientId);
      RefusedIs(s, o, clientId);
      SameMiss(b, o, p.id);
    } else if o.Kind() != Cancel {
      assert !Refused(s, o, clientId);
    }
  }

  lemma RefusedIs(s: State, o: Order, clientId: nat)
    requires Sent(s, o) && o.symbolId < NUM_SYMBOLS
    ensures Refused(s, o, clientId) <==> Out(s, o, clientId).result.Err?
  {
    hide Process, Lock, BookOk;
    CounterIs(s, o);
  }

  lemma SameLock(accounts: Accounts, o: Order, id: nat)
    requires AccountsOk(accounts)
    ensures Lock(accounts, o.(id := id)) == Lock(accounts, o)
  {
  }

  // Counting the id before or inside the engine gives the same counter.
  lemma CounterIs(s: State, o: Order)
    requires s.nextId > 0
    ensures var (p, s1) := LiveStamp(s, o);
            && p.id > 0 && s1.books == s.books
            && EngineStamp(s1.nextId, p) == EngineStamp(s.nextId, p) == p
            && EngineSeq(s1.nextId, p) == EngineSeq(s.nextId, p)
  {
  }

  lemma LockMoves(accounts: Accounts, o: Order)
    requires AccountsOk(accounts) && o.Kind() != Cancel && o.side < 2 && Lock(accounts, o).1.Ok?
    ensures Lock(accounts, o).0 != accounts
  {
    LockEffect(accounts, o);
    var a, b := accounts[o.userId], Lock(accounts, o).0[o.userId];
    if o.side == 0 {
      MulMono(1, o.price, 1, o.qty);
      assert a.usdLocked != b.usdLocked;
    } else {
      assert a.assetLocked[o.symbolId] != b.assetLocked[o.symbolId];
    }
  }

  // ----- Whole runs -------------------------------------------------------------------------------

  type Received = (Order, nat)  // an order and the connection it came from

  // The live loop over a sequence of commands: the state it reaches and the log it writes.
  function LiveRun(s: State, cmds: seq<Received>): (r: (State, seq<Order>))
    requires StateOk(s)
    ensures StateOk(r.0)
    decreases |cmds|
  {
    if cmds == [] then (s, [])
    else
      var (t, log) := LiveRun(s, cmds[..|cmds| - 1]);
      var (o, clientId) := cmds[|cmds| - 1];
      var (u, more) := LiveStep(t, o, clientId);
      (u, log + more)
  }

  function ReplayAll(s: State, log: seq<Order>): (t: State)
    requires StateOk(s)
    ensures StateOk(t)
    decreases |log|
  {
    if log == [] then s else ReplayStep(ReplayAll(s, log[..|log| - 1]), log[|log| - 1])
  }

  predicate Replayable(cmds: seq<Received>) {
    forall i :: 0 <= i < |cmds| ==>
        cmds[i].0.Kind() != OrderType.Deposit && (cmds[i].0.Kind() != Cancel ==> cmds[i].0.side < 2)
  }

  // The engine never ran out of slots during the run.
  ghost predicate NeverFull(s: State, cmds: seq<Received>)
    requires StateOk(s)
    decreases |cmds|
  {
    cmds != [] ==>
      && NeverFull(s, cmds[..|cmds| - 1])
      && !Refused(LiveRun(s, cmds[..|cmds| - 1]).0, cmds[|cmds| - 1].0, cmds[|cmds| - 1].1)
  }

  ghost predicate Rebuilds(s: State, cmds: seq<Received>)
    requires StateOk(s)
  {
    && StateOk(EraseState(s))
    && var (t, log) := LiveRun(s, cmds);
       ReplayAll(EraseState(s), log) == EraseState(t)
  }

  lemma LastStep(s: State, cmds: seq<Received>)
    requires StateOk(s) && s.nextId > 0 && Replayable(cmds) && cmds != []
    requires LiveRun(s, cmds[..|cmds| - 1]).0.nextId > 0 && Rebuilds(s, cmds[..|cmds| - 1])
    ensures LiveRun(s, cmds).0.nextId > 0
    ensures Rebuilds(s, cmds) <==> !Refused(LiveRun(s, cmds[..|cmds| - 1]).0, cmds[|cmds| - 1].0, cmds[|cmds| - 1].1)
  {
    hide LiveStep, ReplayStep, EraseBooks, Refused;
    var (t, log) := LiveRun(s, cmds[..|cmds| - 1]);
    var (o, clientId) := cmds[|cmds| - 1];
    ReplayIsLive(t, o, clientId);
    var more := LiveStep(t, o, clientId).1;
    if more == [] {
      assert log + more == log;
    } else {
      assert more == [more[0]];
      assert (log + more)[..|log + more| - 1] == log && (log + more)[|log + more| - 1] == more[0];
    }
  }

  // Replaying the log of a run from its start rebuilds its end, if the engine never was full.
  lemma {:induction false} LogRebuilds(s: State, cmds: seq<Received>)
    requires StateOk(s) && s.nextId > 0 && Replayable(cmds) && NeverFull(s, cmds)
    ensures LiveRun(s, cmds).0.nextId > 0 && Rebuilds(s, cmds)
    decreases |cmds|
  {
    hide LiveStep, ReplayStep, EraseBooks, Refused;
    if cmds == [] {
      ErasedOk(s);
    } else {
      LogRebuilds(s, cmds[..|cmds| - 1]);
      LastStep(s, cmds);
    }
  }

  // A refusal is also the only thing that ever makes the log of a run rebuild another state.
  lemma {:induction false} RebuildsIff(s: State, cmds: seq<Received>)
    requires StateOk(s) && s.nextId > 0 && Replayable(cmds)
    ensures NeverFull(s, cmds) <==> forall n :: 0 <= n <= |cmds| ==> Rebuilds(s, cmds[..n])
    decreases |cmds|
  {
    hide LiveStep, ReplayStep, EraseBooks, Refused, Rebuilds;
    assert cmds[..|cmds|] == cmds;
    if cmds == [] {
      LogRebuilds(s, cmds);
    } else {
      var p := cmds[..|cmds| - 1];
      RebuildsIff(s, p);
      forall n | 0 <= n <= |p| ensures p[..n] == cmds[..n] {}
      if NeverFull(s, p) {
        LogRebuilds(s, p);
        LastStep(s, cmds);
        forall n | 0 <= n <= |cmds| && Rebuilds(s, cmds) ensures Rebuilds(s, cmds[..n]) {
          if n <= |p| { assert Rebuilds(s, p[..n]); }
        }
      } else {
        var n :| 0 <= n <= |p| && !Rebuilds(s, p[..n]);
        assert p[..n] == cmds[..n];
      }
    }
  }

  // ----- The log of a run can be replayed ---------------------------------------------------------

  // Every command of the sequence is let through when its turn comes.
  ghost predicate Allowed(s: State, cmds: seq<Received>)
    requires StateOk(s)
  {
    forall i :: 0 <= i < |cmds| ==> Command(LiveRun(s, cmds[..i]).0, cmds[i].0)
  }

  lemma AllowedAt(s: State, cmds: seq<Received>, i: nat)
    requires StateOk(s) && Allowed(s, cmds) && i < |cmds|
    ensures Command(LiveRun(s, cmds[..i]).0, cmds[i].0)
  {
  }

  // Every logged order is a deposit or a command that is let through when its turn comes.
  ghost predicate Recoverable(s: State, log: seq<Order>)
    requires StateOk(s)
  {
    forall i :: 0 <= i < |log| ==> log[i].Kind() == OrderType.Deposit || Command(ReplayAll(s, log[..i]), log[i])
  }

  lemma RecoverableAt(s: State, log: seq<Order>, i: nat)
    requires StateOk(s) && Recoverable(s, log) && i < |log|
    ensures log[i].Kind() == OrderType.Deposit || Command(ReplayAll(s, log[..i]), log[i])
  {
  }

  lemma {:induction false} RecoverableSnoc(s: State, log: seq<Order>, o: Order)
    requires StateOk(s) && Recoverable(s, log) && Command(ReplayAll(s, log), o)
    ensures Recoverable(s, log + [o])
  {
    hide Command, ReplayStep;
    var all := log + [o];
    forall i | 0 <= i < |all| ensures all[i].Kind() == OrderType.Deposit || Command(ReplayAll(s, all[..i]), all[i]) {
      if i < |log| {
        assert all[..i] == log[..i] && all[i] == log[i];
        RecoverableAt(s, log, i);
      } else {
        assert all[..i] == log;
      }
    }
  }

  lemma {:induction false} AllowedPrefix(s: State, cmds: seq<Received>)
    requires StateOk(s) && Allowed(s, cmds) && cmds != []
    ensures Allowed(s, cmds[..|cmds| - 1])
  {
    hide LiveRun, Command;
    var p := cmds[..|cmds| - 1];
    forall i | 0 <= i < |p| ensures Command(LiveRun(s, p[..i]).0, p[i].0) {
      assert p[..i] == cmds[..i];
      AllowedAt(s, cmds, i);
    }
  }

  lemma {:induction false} AllowedIsReplayable(s: State, cmds: seq<Received>)
    requires StateOk(s) && Allowed(s, cmds)
    ensures Replayable(cmds)
  {
    hide LiveRun;
    forall i | 0 <= i < |cmds|
      ensures cmds[i].0.Kind() != OrderType.Deposit && (cmds[i].0.Kind() != Cancel ==> cmds[i].0.side < 2)
    {
      AllowedAt(s, cmds, i);
    }
  }

  // What a run logs, recovery accepts and replays to the state the run reached.
  lemma {:induction false} LogIsRecoverable(s: State, cmds: seq<Received>)
    requires StateOk(s) && s.nextId > 0 && Allowed(s, cmds) && NeverFull(s, cmds)
    ensures LiveRun(s, cmds).0.nextId > 0 && Rebuilds(s, cmds) && Recoverable(EraseState(s), LiveRun(s, cmds).1)
    decreases |cmds|
  {
    hide LiveStep, ReplayStep, EraseBooks, Refused, Allowed, Recoverable, Command;
    AllowedIsReplayable(s, cmds);
    LogRebuilds(s, cmds);
    if cmds == [] {
      NothingRecoverable(EraseState(s));
    } else {
      var p := cmds[..|cmds| - 1];
      AllowedPrefix(s, cmds);
      LogIsRecoverable(s, p);
      var t := LiveRun(s, p).0;
      var (o, clientId) := cmds[|cmds| - 1];
      AllowedAt(s, cmds, |cmds| - 1);
      LoggedIsCommand(t, o, clientId);
      var more := LiveStep(t, o, clientId).1;
      if more == [] {
        assert LiveRun(s, p).1 + more == LiveRun(s, p).1;
      } else {
        assert more == [more[0]];
        RecoverableSnoc(EraseState(s), LiveRun(s, p).1, more[0]);
      }
    }
  }

  lemma NothingRecoverable(s: State)
    requires StateOk(s)
    ensures Recoverable(s, [])
  {
  }

  lemma LoggedIsCommand(s: State, o: Order, clientId: nat)
    requires StateOk(s) && Command(s, o)
    ensures StateOk(EraseState(s))
    ensures var log := LiveStep(s, o, clientId).1;
            |log| <= 1 && (log != [] ==> Command(EraseState(s), log[0]))
  {
    hide CancelStep, SubmitStep, Lock, EraseBooks;
    ErasedOk(s);
  }
}
