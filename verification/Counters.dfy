/** The counters of the exchange: the trades of a book have the match ids 1, 2, 3 and so on, over all its
    submissions and cancels, and orders that bring no id get the ids 1, 2, 3 and so on. */
module Counters {
  import opened Types
  import opened Matcher
  import opened Risk
  import opened Exchange
  import opened Accounting
  import opened Runs

  // ----- One book ---------------------------------------------------------------------------------

  // The match ids of these trades count up from tid.
  ghost predicate Numbered(ts: seq<Trade>, tid: nat) {
    forall k :: 0 <= k < |ts| ==> ts[k].matchId == tid + k
  }

  lemma NumberedConcat(a: seq<Trade>, b: seq<Trade>, tid: nat)
    requires Numbered(a, tid) && Numbered(b, tid + |a|)
    ensures Numbered(a + b, tid)
  {
  }

  lemma {:induction false} QueueNumbers(o: Order, qty: nat, clientId: nat, q: seq<Resting>,
                                        clients: map<ClientKey, nat>, tid: nat)
    ensures Numbered(MatchQueue(o, qty, clientId, q, clients, tid).trades, tid)
    decreases |q|
  {
    if qty > 0 && q != [] && q[0].order.userId != o.userId && q[0].order.qty <= qty {
      QueueNumbers(o, qty - q[0].order.qty, clientId, q[1..], clients - {KeyOf(q[0])}, tid + 1);
    }
  }

  lemma {:induction false} SweepNumbers(o: Order, qty: nat, clientId: nat, levels: seq<Level>,
                                        clients: map<ClientKey, nat>, tid: nat)
    ensures Numbered(MatchSide(o, qty, clientId, levels, clients, tid).trades, tid)
    decreases |levels|
  {
    hide Crosses, MatchQueue;
    if qty > 0 && levels != [] && Crosses(o, levels[0].price) {
      QueueNumbers(o, qty, clientId, levels[0].orders, clients, tid);
      var f := MatchQueue(o, qty, clientId, levels[0].orders, clients, tid);
      if f.queue == [] {
        SweepNumbers(o, f.left, clientId, levels[1..], f.clients, tid + |f.trades|);
        NumberedConcat(f.trades, MatchSide(o, f.left, clientId, levels[1..], f.clients, tid + |f.trades|).trades, tid);
      }
    }
  }

  // Whatever a command does, its trades go on counting where the book stopped.
  lemma ProcessNumbers(b: Book, o: Order, clientId: nat)
    ensures var out := Process(b, o, clientId);
            Numbered(out.trades, b.tradeSeq) && out.book.tradeSeq == b.tradeSeq + |out.trades|
  {
    hide MatchSide, Locate, Delete, Place, HasPrice, OrderCount, LevelCount;
    var p := Stamp(b, o);
    SweepNumbers(p, o.qty, clientId, if o.IsSell() then b.bids else b.asks, b.clients, b.tradeSeq);
  }

  // A book after any sequence of submissions and cancels, and all trades made on the way.
  function BookRun(cmds: seq<(Order, nat)>): (Book, seq<Trade>) {
    if cmds == [] then (EMPTY, [])
    else
      var (b, ts) := BookRun(cmds[..|cmds| - 1]);
      var out := Process(b, cmds[|cmds| - 1].0, cmds[|cmds| - 1].1);
      (out.book, ts + out.trades)
  }

  // They have the match ids 1, 2, 3 and so on.
  lemma {:induction false} BookTradesCount(cmds: seq<(Order, nat)>)
    ensures var (b, ts) := BookRun(cmds);
            && (forall k :: 0 <= k < |ts| ==> ts[k].matchId == k + 1)
            && b.tradeSeq == |ts| + 1
  {
    hide Process;
    if cmds != [] {
      var p := cmds[..|cmds| - 1];
      BookTradesCount(p);
      var (b, ts) := BookRun(p);
      ProcessNumbers(b, cmds[|cmds| - 1].0, cmds[|cmds| - 1].1);
    }
  }

  // ----- The whole exchange -----------------------------------------------------------------------

  // The trades of one command in book i.
  function TradesIn(s: State, o: Order, clientId: nat, i: nat): seq<Trade>
    requires StateOk(s)
  {
    if o.Kind() == Cancel || o.symbolId != i || i >= NUM_SYMBOLS || Lock(s.accounts, o).1.Err? then []
    else Out(s, o, clientId).trades
  }

  lemma CancelKeepsCount(b: Book, userId: nat, id: nat)
    ensures CancelOrder(b, userId, id).0.tradeSeq == b.tradeSeq
  {
    hide Locate, Delete;
  }

  lemma NoTrades(tid: nat)
    ensures Numbered([], tid)
  {
  }

  lemma StepNumbers(s: State, o: Order, clientId: nat, i: nat)
    requires SysOk(s) && Command(s, o) && i < NUM_SYMBOLS
    ensures var t, ts := LiveStep(s, o, clientId).0, TradesIn(s, o, clientId, i);
            StateOk(t) && Numbered(ts, s.books[i].tradeSeq) && t.books[i].tradeSeq == s.books[i].tradeSeq + |ts|
  {
    hide BookOk, Process, CancelOrder, Lock, AfterMatch, UnlockOrder, Numbered;
    NoTrades(s.books[i].tradeSeq);
    if o.Kind() == Cancel {
      if o.symbolId < NUM_SYMBOLS { CancelKeepsCount(s.books[o.symbolId], o.userId, o.id); }
    } else if Lock(s.accounts, o).1.Ok? {
      hide LiveStep;
      StampedFacts(s, o, clientId);
      LiveIs(s, o, clientId);
      ProcessNumbers(s.books[o.symbolId], Stamped(s, o), clientId);
    }
  }

  // All trades of a run in book i, in order.
  ghost function RunTrades(es: seq<Event>, i: nat): seq<Trade> {
    if es == [] then []
    else
      var p, e := es[..|es| - 1], es[|es| - 1];
      RunTrades(p, i) + if e.Received? then TradesIn(Run(p), e.order, e.clientId, i) else []
  }

  // In every book the trades of an admitted run have the match ids 1, 2, 3 and so on: none is used twice.
  lemma {:induction false} RunTradesCount(es: seq<Event>, i: nat)
    requires Admitted(es) && i < NUM_SYMBOLS
    ensures var ts := RunTrades(es, i);
            && (forall k :: 0 <= k < |ts| ==> ts[k].matchId == k + 1)
            && (forall j, k :: 0 <= j < k < |ts| ==> ts[j].matchId != ts[k].matchId)
            && Run(es).books[i].tradeSeq == |ts| + 1
  {
    hide SysOk, LiveStep, Command, TradesIn, Deposited;
    if es != [] {
      var p, e := es[..|es| - 1], es[|es| - 1];
      RunTradesCount(p, i);
      RunKeepsBooks(p);
      if e.Received? { StepNumbers(Run(p), e.order, e.clientId, i); }
    }
  }

  // The submissions a run let in, as they were logged.
  ghost function Logged(es: seq<Event>): seq<Order> {
    if es == [] then []
    else
      var p, e := es[..|es| - 1], es[|es| - 1];
      Logged(p) + if e.Received? && e.order.Kind() != Cancel then LiveStep(Run(p), e.order, e.clientId).1 else []
  }

  predicate BringsNoId(e: Event) { e.Received? && e.order.Kind() != Cancel ==> e.order.id == 0 }

  lemma StepStamps(s: State, o: Order, clientId: nat)
    requires SysOk(s) && Command(s, o) && (o.Kind() != Cancel ==> o.id == 0)
    ensures var (t, log) := LiveStep(s, o, clientId);
            if o.Kind() == Cancel || Lock(s.accounts, o).1.Err? then
              t.nextId == s.nextId && (log == [] || o.Kind() == Cancel)
            else log == [o.(id := s.nextId)] && t.nextId == s.nextId + 1
  {
    hide BookOk, Process, EngineCancel, Lock, AfterMatch, UnlockOrder;
    if o.Kind() != Cancel && Lock(s.accounts, o).1.Ok? {
      hide LiveStep;
      LiveIs(s, o, clientId);
    }
  }

  // As long as no submission brings an id, those let in get the ids 1, 2, 3 and so on over all books.
  lemma {:induction false} RunIdsCount(es: seq<Event>)
    requires Admitted(es) && forall e :: e in es ==> BringsNoId(e)
    ensures (forall k :: 0 <= k < |Logged(es)| ==> Logged(es)[k].id == k + 1) && Run(es).nextId == |Logged(es)| + 1
  {
    hide SysOk, LiveStep, Command, Deposited, Lock;
    if es != [] {
      var p, e := es[..|es| - 1], es[|es| - 1];
      RunIdsCount(p);
      RunKeepsBooks(p);
      assert BringsNoId(e);
      if e.Received? { StepStamps(Run(p), e.order, e.clientId); }
    }
  }
}
