/** One step of the exchange as a function: the Stage 2 loop body of src/bin/exchange.rs and its replay,
    over three books, the order id counter and the accounts. */
module Exchange {
  import opened Types
  import opened Matcher
  import opened Risk
  import opened Ledger
  import opened Exposure

  datatype State = State(books: seq<Book>, nextId: nat, accounts: Accounts)

  // What MultiAssetEngine::process does to the books: stamp a missing id, count ids, submit or cancel.
  function EngineStamp(nextId: nat, o: Order): Order { if o.id == 0 then o.(id := nextId) else o }

  function EngineSeq(nextId: nat, o: Order): nat { if o.id == 0 then nextId + 1 else Max(nextId, o.id + 1) }

  // The books and counter after the engine has processed an order, with the outcome.
  function EngineProcess(books: seq<Book>, nextId: nat, o: Order,
                         clientId: nat): (seq<Book>, nat, Result<ExecutionReport>, seq<Trade>) {
    if o.symbolId >= NUM_SYMBOLS || o.symbolId >= |books| then (books, nextId, Err(InvalidOrder), [])
    else
      var out := Process(books[o.symbolId], EngineStamp(nextId, o), clientId);
      (books[o.symbolId := out.book], EngineSeq(nextId, o), out.result, out.trades)
  }

  function EngineCancel(books: seq<Book>, sym: nat, userId: nat, id: nat): (seq<Book>, Result<Order>) {
    if sym >= NUM_SYMBOLS || sym >= |books| then (books, Err(InvalidOrder))
    else
      var (b, r) := CancelOrder(books[sym], userId, id);
      (books[sym := b], r)
  }

  // Settle the trades of a successful submission and release what it no longer needs.
  function AfterMatch(accounts: Accounts, o: Order, report: ExecutionReport, ts: seq<Trade>): (r: Accounts)
    requires AccountsOk(accounts)
    ensures AccountsOk(r)
  {
    var settled := SettleAll(accounts, ts, o.price);
    var released := if report.stpTriggered && report.remainingQty > 0
      then UnlockOrder(settled, o, report.remainingQty) else settled;
    if o.Kind() == Market && !report.stpTriggered then
      Refund(released, o.userId, o.symbolId, !o.IsSell(), o.price, o.qty, Over(ts, QtyOf()), Over(ts, SatCostOf()))
    else released
  }

  // The running total of costs, each saturated like the cost of a settlement.
  function SatCostOf(): Trade -> nat { (t: Trade) => Cost(t) }

  ghost predicate StateOk(s: State) { |s.books| == NUM_SYMBOLS && AccountsOk(s.accounts) }

  // A cancel that succeeds releases the cancelled order's margin.
  function CancelStep(s: State, o: Order): (State, bool)
    requires StateOk(s)
  {
    var (books, r) := EngineCancel(s.books, o.symbolId, o.userId, o.id);
    match r
    case Ok(cancelled) => (State(books, s.nextId, UnlockOrder(s.accounts, cancelled, cancelled.qty)), true)
    case Err(_) => (s.(books := books), false)
  }

  // A submission whose funds are locked goes to the engine; if the engine refuses it, only the live
  // loop gives the funds back.
  function SubmitStep(s: State, o: Order, clientId: nat, unlockOnReject: bool): State
    requires StateOk(s)
  {
    var (books, nextId, r, ts) := EngineProcess(s.books, s.nextId, o, clientId);
    match r
    case Ok(report) => State(books, nextId, AfterMatch(s.accounts, o, report, ts))
    case Err(_) => State(books, nextId, if unlockOnReject then UnlockOrder(s.accounts, o, o.qty) else s.accounts)
  }

  // The id the live loop gives a submission that brings none, before logging it.
  function LiveStamp(s: State, o: Order): (Order, State) {
    if o.id == 0 then (o.(id := s.nextId), s.(nextId := s.nextId + 1)) else (o, s)
  }

  // The live loop on one command: the new state and what it appends to the log.
  function LiveStep(s: State, o: Order, clientId: nat): (State, seq<Order>)
    requires StateOk(s)
  {
    if o.Kind() == Cancel then
      var (t, done) := CancelStep(s, o);
      (t, if done then [o] else [])
    else
      var (accounts, r) := Lock(s.accounts, o);
      if r.Err? then (s, [])
      else
        var (stamped, t) := LiveStamp(s, o);
        (SubmitStep(t.(accounts := accounts), stamped, clientId, true), [stamped])
  }

  // Replaying one logged order.
  function ReplayStep(s: State, o: Order): State
    requires StateOk(s)
  {
    if o.Kind() == OrderType.Deposit then s.(accounts := Deposited(s.accounts, o.userId, o.price, o.symbolId, o.qty))
    else if o.symbolId >= NUM_SYMBOLS then s
    else if o.Kind() == Cancel then CancelStep(s, o).0
    else
      var (accounts, r) := Lock(s.accounts, o);
      if r.Err? then s else SubmitStep(s.(accounts := accounts), o, 0, false)
  }

  // ----- Reachable states -------------------------------------------------------------------------

  // The orders of book i were accepted: their owners have accounts, and bids have a lockable value.
  ghost predicate Accepted(b: Book, i: nat, accounts: Accounts) {
    && (forall r :: r in Flat(b.bids) ==>
          r.order.symbolId == i && r.order.userId in accounts && r.order.price > 0
              && r.order.price * r.order.qty <= U64_MAX)
    && (forall r :: r in Flat(b.asks) ==> r.order.symbolId == i && r.order.userId in accounts)
  }

  ghost predicate BookOk(b: Book, i: nat, nextId: nat, accounts: Accounts) {
    Wf(b) && b.orderSeq <= nextId && Accepted(b, i, accounts)
  }

  ghost predicate SysOk(s: State) {
    && StateOk(s) && s.nextId > 0
    && forall i {:trigger s.books[i]} :: 0 <= i < NUM_SYMBOLS ==> BookOk(s.books[i], i, s.nextId, s.accounts)
  }

  // A user's USD behind bids in all three books.
  function UsdExposure(books: seq<Book>, u: nat): nat
    requires |books| == NUM_SYMBOLS
  {
    Value(Flat(books[0].bids), u) + Value(Flat(books[1].bids), u) + Value(Flat(books[2].bids), u)
  }

  // Locked funds are exactly the exposure of resting orders.
  ghost predicate LocksMatch(s: State)
    requires StateOk(s)
  {
    forall u {:trigger s.accounts[u]} :: u in s.accounts ==> AccountMatches(s, u)
  }

  ghost predicate AccountMatches(s: State, u: nat)
    requires StateOk(s) && u in s.accounts
  {
    && s.accounts[u].usdLocked == UsdExposure(s.books, u)
    && forall i :: 0 <= i < NUM_SYMBOLS ==> s.accounts[u].assetLocked[i] == Amount(Flat(s.books[i].asks), u)
  }

  // The commands the statements assume: a limit, market or cancel, and for a submission a valid side and
  // no id or one the counter has not reached.
  ghost predicate Command(s: State, o: Order) {
    && o.Kind() != OrderType.Deposit
    && (o.Kind() != Cancel ==> o.side < 2 && (o.id == 0 || o.id >= s.nextId))
  }
}
