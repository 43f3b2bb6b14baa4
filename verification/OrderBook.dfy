/** The order book of src/book.rs: arenas, ladders and indices updated in place, refining the
    price-time matcher. */
module OrderBooks {
  import opened Types
  import opened Arena
  import opened Links
  import opened LevelStore
  import opened ProbeTable
  import opened Matcher
  import opened PriceTime
  import opened BookRep
  import opened BookSteps
  import opened BookSafety
  import opened BookSizes
  import opened BookFacts

  const FAST_MAP_CAPACITY: nat := 262_144
  const FAST_PRICE_CAPACITY: nat := 8_192
  const FAST_CLIENT_CAPACITY: nat := 262_144

  // The caller's trade buffer, `trades: &mut Vec<Trade>`.
  class TradeBuffer {
    var items: seq<Trade>

    constructor ()
      ensures items == []
    {
      items := [];
    }
  }

  // The three empty indices of a book.
  method NewIndices(priceHash: nat -> nat, idHash: nat -> nat, clientHash: ClientKey -> nat)
    returns (p: Table<nat, nat>, i: Table<nat, IndexEntry>, c: Table<ClientKey, nat>)
    requires forall k :: priceHash(k) < FAST_PRICE_CAPACITY
    requires forall k :: idHash(k) < FAST_MAP_CAPACITY
    requires forall k :: clientHash(k) < FAST_CLIENT_CAPACITY
    ensures p.Valid() && p.Contents == map[] && p.entries.Length == FAST_PRICE_CAPACITY
    ensures i.Valid() && i.Contents == map[] && i.entries.Length == FAST_MAP_CAPACITY
    ensures c.Valid() && c.Contents == map[] && c.entries.Length == FAST_CLIENT_CAPACITY
    ensures fresh(p) && fresh(p.entries) && fresh(i) && fresh(i.entries) && fresh(c) && fresh(c.entries)
  {
    hide Table.Valid;
    p := new Table(FAST_PRICE_CAPACITY, priceHash);
    i := new Table(FAST_MAP_CAPACITY, idHash);
    c := new Table(FAST_CLIENT_CAPACITY, clientHash);
  }

  // Its two arenas, with every slot free.
  method NewArenas() returns (l: LevelArena, o: OrderArena)
    ensures l.Valid() && l.nodes.Length == MAX_PRICE_LEVELS == |l.stack|
    ensures forall j :: 0 <= j < l.nodes.Length ==> !l.nodes[j].active
    ensures o.Valid() && o.nodes.Length == MAX_ARENA_ORDERS == |o.stack|
    ensures fresh(l) && fresh(l.nodes) && fresh(o) && fresh(o.nodes)
  {
    hide LevelArena.Valid, OrderArena.Valid;
    l := new LevelArena(MAX_PRICE_LEVELS);
    o := new OrderArena(MAX_ARENA_ORDERS);
  }

  class OrderBook {
    var bestBid: nat
    var bestAsk: nat
    const prices: Table<nat, nat>
    const levels: LevelArena
    const orders: OrderArena
    const ids: Table<nat, IndexEntry>
    const clients: Table<ClientKey, nat>
    var tradeSeq: nat
    var orderSeq: nat

    ghost var bids: seq<nat>
    ghost var asks: seq<nat>
    ghost var queues: seq<seq<nat>>
    ghost var leaked: nat
    ghost const footprint: set<object>

    ghost function Repr(): set<object> {
      {this, prices, prices.entries, levels, levels.nodes, orders, orders.nodes,
       ids, ids.entries, clients, clients.entries}
    }

    // The parts are well formed and share no memory.
    ghost predicate Parts()
      reads Repr()
    {
      && prices.Valid() && ids.Valid() && clients.Valid() && levels.Valid() && orders.Valid()
      && prices.entries.Length == FAST_PRICE_CAPACITY
      && ids.entries.Length == FAST_MAP_CAPACITY
      && clients.entries.Length == FAST_CLIENT_CAPACITY
      && levels.nodes.Length == MAX_PRICE_LEVELS
      && orders.nodes.Length == MAX_ARENA_ORDERS
    }

    ghost function Snapshot(): Rep
      reads Repr()
    {
      Rep(orders.nodes[..], levels.nodes[..], bestBid, bestAsk, bids, asks, queues, prices.Contents, ids.Contents)
    }

    // The represented book.
    ghost function Abs(): Book
      reads Repr()
    {
      Book(Bids(Snapshot()), Asks(Snapshot()), clients.Contents, leaked, tradeSeq, orderSeq)
    }

    ghost predicate Sound()
      reads Repr()
    {
      Parts() && Inv(Snapshot())
    }

    // Every order slot is free, queued or leaked; every level slot is free or on a ladder.
    ghost predicate Slots()
      reads Repr()
    {
      && OrderCount(Abs()) + leaked + |orders.stack| == MAX_ARENA_ORDERS
      && LevelCount(Abs()) + |levels.stack| == MAX_PRICE_LEVELS
    }

    ghost predicate Valid()
      reads Repr()
    {
      Sound() && Wf(Abs()) && Slots()
    }

    lemma SideIsAbs()
      ensures Abs().bids == Side(Snapshot(), false) && Abs().asks == Side(Snapshot(), true)
    {
    }

    lemma AbsIs()
      ensures Abs() ==
              Book(Side(Snapshot(), false), Side(Snapshot(), true), clients.Contents, leaked, tradeSeq, orderSeq)
    {
    }

    // Freshly allocated: nothing is active, nothing is indexed.
    ghost predicate Blank()
      reads Repr()
    {
      && Parts()
      && bids == [] && asks == [] && bestBid == NULL_IDX && bestAsk == NULL_IDX
      && prices.Contents == map[] && ids.Contents == map[] && clients.Contents == map[]
      && |queues| == levels.nodes.Length
      && (forall l :: 0 <= l < |queues| ==> !levels.nodes[l].active && queues[l] == [])
      && |orders.stack| == MAX_ARENA_ORDERS && |levels.stack| == MAX_PRICE_LEVELS
      && leaked == 0 && tradeSeq == orderSeq == 1
    }

    lemma BlankIsEmpty()
      requires Blank()
      ensures Valid() && Abs() == EMPTY
    {
      hide Table.Valid, LevelArena.Valid, OrderArena.Valid, Inv, Wf, Bids, Asks, OrderCount, LevelCount;
      EmptyInv(Snapshot());
      EmptyWf();
    }

    constructor (priceHash: nat -> nat, idHash: nat -> nat, clientHash: ClientKey -> nat)
      requires forall k :: priceHash(k) < FAST_PRICE_CAPACITY
      requires forall k :: idHash(k) < FAST_MAP_CAPACITY
      requires forall k :: clientHash(k) < FAST_CLIENT_CAPACITY
      ensures Valid() && Abs() == EMPTY
      ensures footprint == Repr() && fresh(footprint)
    {
      hide Table.Valid, LevelArena.Valid, OrderArena.Valid, Valid, Abs, Snapshot;
      var p, i, c := NewIndices(priceHash, idHash, clientHash);
      var l, o := NewArenas();
      prices, levels, orders, ids, clients := p, l, o, i, c;
      bestBid, bestAsk := NULL_IDX, NULL_IDX;
      tradeSeq, orderSeq := 1, 1;
      bids, asks, leaked := [], [], 0;
      queues := seq(MAX_PRICE_LEVELS, _ => []);
      footprint := {this, p, p.entries, l, l.nodes, o, o.nodes, i, i.entries, c, c.entries};
      new;
      BlankIsEmpty();
    }

    // ----- Matching one level -------------------------------------------------------------------

    // Reduce the quantity of the oldest order of a level, and the level's total, by a fill.
    method ReduceHead(l: nat, i: nat, qty: nat)
      requires Parts() && l < levels.nodes.Length && i < orders.nodes.Length
      requires qty <= orders.nodes[i].order.qty && qty <= levels.nodes[l].totalQty
      modifies orders.nodes, levels.nodes
      ensures Parts() && Snapshot() == ReduceRep(old(Snapshot()), l, i, qty)
    {
      hide Table.Valid, LevelArena.Valid, OrderArena.Valid, Filled;
      assert orders.nodes[..][i] == orders.nodes[i] && levels.nodes[..][l] == levels.nodes[l];
      orders.Fill(i, qty);
      levels.Fill(l, qty);
    }

    // Take the oldest order off the queue of a level.
    method UnqueueHead(l: nat, i: nat)
      requires Parts() && l < levels.nodes.Length && i < orders.nodes.Length
      requires l < |queues| && queues[l] != [] && queues[l][0] == i
      requires levels.nodes[l].headOrder == i && orders.nodes[i].active && orders.nodes[i].prev == NULL_IDX
      requires Linkable(orders.nodes[..], orders.nodes[i].next)
      modifies this`queues, orders.nodes, levels.nodes
      ensures Parts() && Snapshot() == UnlinkRep(old(Snapshot()), l, 0)
    {
      hide Table.Valid, LevelArena.Valid, OrderArena.Valid, UnlinkLevel, UnlinkNodes, Linkable, Without;
      assert orders.nodes[..][i] == orders.nodes[i] && levels.nodes[..][l] == levels.nodes[l];
      var _ := levels.PopOrder(l, orders);
      queues := queues[l := Without(queues[l], 0)];
    }

    method Unindex(order: Order)
      requires Parts()
      modifies ids, ids.entries, clients, clients.entries
      ensures Parts() && Snapshot() == old(Snapshot()).(ids := old(ids.Contents) - {order.id})
      ensures clients.Contents == old(clients.Contents) - {(order.userId, order.clientOrderId)}
    {
      hide Table.Valid, LevelArena.Valid, OrderArena.Valid;
      var _ := ids.Remove(order.id);

      var _ := clients.Remove((order.userId, order.clientOrderId));
    }

    // An order that has left its queue leaves its arena and both indices.
    method Forget(i: nat, order: Order)
      requires Parts() && i < orders.nodes.Length && orders.nodes[i].active
      modifies orders, orders.nodes, ids, ids.entries, clients, clients.entries
      ensures Parts() && Snapshot() == ForgetRep(old(Snapshot()), i, old(orders.freeHead), order.id)
      ensures clients.Contents == old(clients.Contents) - {(order.userId, order.clientOrderId)}
      ensures |orders.stack| == |old(orders.stack)| + 1
    {
      hide Table.Valid, LevelArena.Valid, OrderArena.Valid;
      assert orders.nodes[..][i] == orders.nodes[i];
      orders.Deallocate(i);
      Unindex(order);
    }

    ghost predicate HeadOk(l: nat, i: nat)
      requires l < levels.nodes.Length && l < |queues| && queues[l] != []
      reads this, orders, orders.nodes, levels, levels.nodes
    {
      && i < orders.nodes.Length < NULL_IDX && orders.nodes[i].active && orders.nodes[i].prev == NULL_IDX
      && Linkable(orders.nodes[..], orders.nodes[i].next)
      && AbsQueue(orders.nodes[..], queues[l])[0] == Resting(orders.nodes[i].order, orders.nodes[i].clientId)
      && orders.nodes[i].order.qty <= levels.nodes[l].totalQty
    }

    // What the head of a level looks like from the represented book.
    lemma {:induction false} HeadFacts(isSell: bool, k: nat)
      requires Sound() && k < |Ladder(Snapshot(), isSell)|
      ensures var l := Ladder(Snapshot(), isSell)[k];
              && l < levels.nodes.Length == |queues|
              && levels.nodes[l].headOrder == First(queues[l])
              && Side(Snapshot(), isSell)[k] == Level(levels.nodes[l].price, AbsQueue(orders.nodes[..], queues[l]))
              && (queues[l] != [] ==> HeadOk(l, queues[l][0]))
    {
      hide Structure, QueueAt, Table.Valid, LevelArena.Valid, OrderArena.Valid;
      LadderLevel(Snapshot(), isSell, k);
      var l := Ladder(Snapshot(), isSell)[k];
      QueueHead(orders.nodes[..], queues[l], levels.nodes[..][l]);
      if queues[l] != [] { QueueNode(Snapshot(), l, 0); }
    }

    // The same, for the queue q that the level represents.
    lemma {:induction false} HeadOf(isSell: bool, k: nat, q: seq<Resting>)
      requires Sound() && k < |Ladder(Snapshot(), isSell)| && k < |Side(Snapshot(), isSell)|
      requires q == Side(Snapshot(), isSell)[k].orders
      ensures var l := Ladder(Snapshot(), isSell)[k];
              && l < levels.nodes.Length
              && (levels.nodes[l].headOrder == NULL_IDX <==> q == [])
              && (q != [] ==> levels.nodes[l].headOrder < orders.nodes.Length
                              && orders.nodes[levels.nodes[l].headOrder].order == q[0].order)
    {
      hide Inv, Table.Valid, LevelArena.Valid, OrderArena.Valid, Linkable;
      HeadFacts(isSell, k);
    }

    // One trade with the oldest order of a level, whose represented queue is q.
    method TradeHead(o: Order, left: nat, clientId: nat, l: nat, buf: TradeBuffer, ghost isSell: bool, ghost k: nat,
                     ghost q: seq<Resting>)
      returns (rest: nat)
      requires Sound() && k < |Ladder(Snapshot(), isSell)| && l == Ladder(Snapshot(), isSell)[k]
      requires q != [] && q == Side(Snapshot(), isSell)[k].orders
      modifies this`queues, this`tradeSeq, orders, orders.nodes, levels.nodes, ids, ids.entries, clients,
               clients.entries, buf
      ensures Sound()
      ensures rest == left - FillOf(left, q)
      ensures buf.items == old(buf.items) + [MakeTrade(o, clientId, q[0], FillOf(left, q), old(tradeSeq))]
      ensures tradeSeq == old(tradeSeq) + 1
      ensures Changed(old(Snapshot()), Snapshot(), isSell, k, AfterFill(left, q))
      ensures clients.Contents == ClientsAfterFill(left, q, old(clients.Contents))
      ensures |orders.stack| + |AfterFill(left, q)| == old(|orders.stack|) + |q|
    {
      hide Table.Valid, LevelArena.Valid, OrderArena.Valid, Inv, Changed, Linkable, UnlinkNodes, UnlinkLevel;
      ghost var r := Snapshot();
      HeadFacts(isSell, k);
      var i := levels.nodes[l].headOrder;
      var maker := orders.nodes[i];
      var fill := Min(left, maker.order.qty);
      var matchId := tradeSeq;
      tradeSeq := tradeSeq + 1;
      buf.items := buf.items + [MakeTrade(o, clientId, Resting(maker.order, maker.clientId), fill, matchId)];
      rest := left - fill;
      ReduceStep(r, isSell, k, fill);
      ReduceHead(l, i, fill);
      if orders.nodes[i].order.qty == 0 {
        ghost var r1 := Snapshot();
        ChangedLevel(r, r1, isSell, k, [Reduced(q[0], fill)] + q[1..]);
        HeadFacts(isSell, k);
        ghost var r2head := orders.freeHead;
        RemoveStep(r1, isSell, k, 0, r2head);
        UnlinkActive(orders.nodes[..], i);
        UnqueueHead(l, i);
        Forget(i, maker.order);
        ghost var q1 := [Reduced(q[0], fill)] + q[1..];
        assert q1[..0] + q1[1..] == q[1..];
        assert Snapshot() == ForgetRep(UnlinkRep(r1, l, 0), i, r2head, maker.order.id);
        ChangedTwice(r, r1, Snapshot(), isSell, k, [Reduced(q[0], fill)] + q[1..], q[1..]);
      }
    }

    // match_level: trade with the queue of one level, whose represented queue is q0, until either side
    // is used up or the oldest order is the taker's own.
    method MatchLevel(o: Order, qty: nat, clientId: nat, l: nat, buf: TradeBuffer, ghost isSell: bool, ghost k: nat,
                      ghost q0: seq<Resting>)
      returns (left: nat, stp: bool, ghost f: Fill)
      requires Sound() && k < |Ladder(Snapshot(), isSell)| && l == Ladder(Snapshot(), isSell)[k]
      requires k < |Side(Snapshot(), isSell)| && q0 == Side(Snapshot(), isSell)[k].orders
      modifies this`queues, this`tradeSeq, orders, orders.nodes, levels.nodes, ids, ids.entries, clients,
               clients.entries, buf
      ensures f == MatchQueue(o, qty, clientId, q0, old(clients.Contents), old(tradeSeq))
      ensures Sound()
      ensures left == f.left && stp == f.stp && clients.Contents == f.clients
      ensures buf.items == old(buf.items) + f.trades && tradeSeq == old(tradeSeq) + |f.trades|
      ensures Changed(old(Snapshot()), Snapshot(), isSell, k, f.queue)
      ensures |orders.stack| + |f.queue| == old(|orders.stack|) + |q0|
    {
      hide Table.Valid, LevelArena.Valid, OrderArena.Valid, Inv, Changed, MatchQueue, MakeTrade, Side, Ladder;
      hide AfterFill, FillOf, ClientsAfterFill, Sound, Snapshot;
      ghost var r := Snapshot();
      ghost var q := q0;
      ghost var made: seq<Trade> := [];
      f := MatchQueue(o, qty, clientId, q0, clients.Contents, tradeSeq);
      left := qty;
      ChangedRefl(r, isSell, k);
      HeadOf(isSell, k, q);
      while left > 0 && levels.nodes[l].headOrder != NULL_IDX
        invariant Sound() && Changed(r, Snapshot(), isSell, k, q)
        invariant l < levels.nodes.Length && k < |Ladder(Snapshot(), isSell)| && l == Ladder(Snapshot(), isSell)[k]
        invariant k < |Side(Snapshot(), isSell)| && Side(Snapshot(), isSell)[k].orders == q
        invariant f == Prefixed(made, MatchQueue(o, left, clientId, q, clients.Contents, tradeSeq))
        invariant buf.items == old(buf.items) + made && tradeSeq == old(tradeSeq) + |made|
        invariant |orders.stack| + |q| == old(|orders.stack|) + |q0|
        decreases |q| + left
      {
        HeadOf(isSell, k, q);
        FillStep(o, left, clientId, q, clients.Contents, tradeSeq);
        var head := levels.nodes[l].headOrder;
        if orders.nodes[head].order.userId == o.userId {
          return left, true, f;
        }
        ghost var r1, before := Snapshot(), left;
        ghost var trade := MakeTrade(o, clientId, q[0], FillOf(left, q), tradeSeq);
        PrefixedTwice(made, trade, MatchQueue(o, left - FillOf(left, q), clientId, AfterFill(left, q),
                                              ClientsAfterFill(left, q, clients.Contents), tradeSeq + 1));
        AfterFillSmaller(left, q);
        left := TradeHead(o, left, clientId, l, buf, isSell, k, q);
        ChangedTwice(r, r1, Snapshot(), isSell, k, q, AfterFill(before, q));
        made := made + [trade];
        q := AfterFill(before, q);
        ChangedLevel(r, Snapshot(), isSell, k, q);
      }
      HeadOf(isSell, k, q);
      FillStep(o, left, clientId, q, clients.Contents, tradeSeq);
      stp := false;
    }

    // ----- The price ladder ---------------------------------------------------------------------

    ghost predicate LinkOk(i: nat)
      reads this, levels
    {
      i == NULL_IDX || i < levels.nodes.Length
    }

    method UnlinkPriceLevel(l: nat, isSell: bool)
      requires Parts() && l < levels.nodes.Length
      requires LinkOk(levels.nodes[l].prevLevel) && LinkOk(levels.nodes[l].nextLevel)
      modifies this`bestBid, this`bestAsk, levels.nodes
      ensures Parts()
      ensures levels.nodes[..] == UnlinkLevels(old(levels.nodes[..]), l)
      ensures bestAsk == (if isSell && old(levels.nodes[l]).prevLevel == NULL_IDX
                        then old(levels.nodes[l]).nextLevel else old(bestAsk))
      ensures bestBid == (if !isSell && old(levels.nodes[l]).prevLevel == NULL_IDX
                        then old(levels.nodes[l]).nextLevel else old(bestBid))
    {
      hide Table.Valid, OrderArena.Valid, OnStack;
      var a := levels.nodes;
      ghost var ln := a[..];
      var prev, next := a[l].prevLevel, a[l].nextLevel;
      if prev != NULL_IDX {
        a[prev] := a[prev].(nextLevel := next);
      } else if isSell {
        bestAsk := next;
      } else {
        bestBid := next;
      }
      if next != NULL_IDX {
        a[next] := a[next].(prevLevel := prev);
      }
      a[l] := a[l].(prevLevel := NULL_IDX);
      a[l] := a[l].(nextLevel := NULL_IDX);
      SameFree(ln, a[..]);
    }

    // Drop the empty level at position k of a ladder.
    method CloseLevel(l: nat, price: nat, isSell: bool, ghost k: nat)
      requires Parts() && Structure(Snapshot()) && k < |Ladder(Snapshot(), isSell)|
      requires l == Ladder(Snapshot(), isSell)[k]
      requires l < |queues| && queues[l] == []
      requires l < levels.nodes.Length && price == levels.nodes[l].price
      modifies this, levels, levels.nodes, prices, prices.entries
      ensures Parts() && Snapshot() == CloseRep(old(Snapshot()), isSell, k, old(levels.freeHead))
      ensures |levels.stack| == old(|levels.stack|) + 1
      ensures tradeSeq == old(tradeSeq) && orderSeq == old(orderSeq) && leaked == old(leaked)
    {
      hide Table.Valid, LevelArena.Valid, OrderArena.Valid, Structure, UnlinkLevels;
      ghost var r := Snapshot();
      LadderNode(r, isSell, k);
      assert levels.nodes[l] == r.ln[l];
      UnlinkPriceLevel(l, isSell);
      var _ := prices.Remove(price);
      levels.Deallocate(l);
      if isSell { asks := Without(asks, k); } else { bids := Without(bids, k); }
    }

    // Walk from the best level to the last one that is better than the price.
    method LastBetter(best: nat, price: nat, isSell: bool, ghost a: seq<nat>) returns (curr: nat, ghost m: nat)
      requires LadderOk(levels.nodes[..], a, price, isSell) && a != [] && best == a[0]
      requires !Better(isSell, price, PriceOf(levels.nodes[..], best))
      ensures m < |a| && curr == a[m] < levels.nodes.Length && levels.nodes[curr].nextLevel == After(a, m)
      ensures m + 1 < |a| ==> a[m + 1] < levels.nodes.Length
      ensures LinksAt(levels.nodes[..], a, m + 1, price, isSell)
    {
      hide LadderOk, LinksAt;
      var v := levels.nodes;
      LadderStart(v[..], a, price, isSell);
      curr, m := best, 0;
      LadderWalk(v[..], a, price, isSell, 0);
      while v[curr].nextLevel != NULL_IDX && Better(isSell, v[v[curr].nextLevel].price, price)
        invariant m < |a| && curr == a[m] < v.Length
        invariant v[curr].nextLevel == After(a, m)
        invariant m + 1 < |a| ==> a[m + 1] < v.Length && v[a[m + 1]].price != price
        invariant Better(isSell, v[curr].price, price)
        decreases |a| - m
      {
        curr := v[curr].nextLevel;
        m := m + 1;
        LadderWalk(v[..], a, price, isSell, m);
      }
      LadderWalk(v[..], a, price, isSell, m);
    }

    method LinkAfter(curr: nat, l: nat)
      requires curr < levels.nodes.Length < NULL_IDX && l < levels.nodes.Length && curr != l
      requires LinkOk(levels.nodes[curr].nextLevel) && levels.nodes[curr].nextLevel != l
      modifies levels.nodes
      ensures levels.nodes[..] == LinkLevels(old(levels.nodes[..]), curr, l, old(levels.nodes[curr]).nextLevel)
    {
      var v := levels.nodes;
      var next := v[curr].nextLevel;
      v[curr] := v[curr].(nextLevel := l);
      v[l] := v[l].(prevLevel := curr);
      v[l] := v[l].(nextLevel := next);
      if next != NULL_IDX {
        v[next] := v[next].(prevLevel := l);
      }
    }

    // Put level l, which is not on the ladder a, into its side before the first worse level.
    method LinkPriceLevel(l: nat, isSell: bool, ghost a: seq<nat>) returns (ghost k: nat)
      requires levels.Valid() && l < levels.nodes.Length < NULL_IDX && l !in a
      requires levels.nodes[l].prevLevel == NULL_IDX && levels.nodes[l].nextLevel == NULL_IDX
      requires (if isSell then bestAsk else bestBid) == First(a)
      requires LadderOk(levels.nodes[..], a, levels.nodes[l].price, isSell)
      modifies this`bestBid, this`bestAsk, levels.nodes
      ensures levels.Valid()
      ensures k <= |a| && LinksAt(old(levels.nodes[..]), a, k, old(levels.nodes[l]).price, isSell)
      ensures levels.nodes[..] == LinkLevels(old(levels.nodes[..]), Before(a, k), l, if k < |a| then a[k] else NULL_IDX)
      ensures bestAsk == (if isSell && k == 0 then l else old(bestAsk))
      ensures bestBid == (if !isSell && k == 0 then l else old(bestBid))
    {
      hide OnStack, Linked, LadderOk, LinksAt;
      var v := levels.nodes;
      ghost var ln := v[..];
      var price := v[l].price;
      var best := if isSell then bestAsk else bestBid;
      LadderStart(ln, a, price, isSell);
      if best == NULL_IDX {
        v[l] := v[l].(prevLevel := NULL_IDX);
        v[l] := v[l].(nextLevel := NULL_IDX);
        if isSell { bestAsk := l; } else { bestBid := l; }
        k := 0;
      } else if Better(isSell, price, v[best].price) {
        v[l] := v[l].(nextLevel := best);
        v[l] := v[l].(prevLevel := NULL_IDX);
        v[best] := v[best].(prevLevel := l);
        if isSell { bestAsk := l; } else { bestBid := l; }
        k := 0;
      } else {
        var curr, m := LastBetter(best, price, isSell, a);
        LinkAfter(curr, l);
        k := m + 1;
      }
      assert v[..] == LinkLevels(ln, Before(a, k), l, if k < |a| then a[k] else NULL_IDX);
      LinkKeepsFree(ln, Before(a, k), l, if k < |a| then a[k] else NULL_IDX);
    }

    // Take a level slot for a new price and enter it in the price index; s is the snapshot before.
    method TakeLevel(price: nat, ghost s: Rep) returns (r: Result<nat>)
      requires Sound() && s == Snapshot() && price !in prices.Contents
      modifies levels, levels.nodes, prices, prices.entries
      ensures r == if old(levels.stack) == [] then Err(EngineFull) else Ok(Last(old(levels.stack)))
      ensures r.Err? ==> unchanged(levels, levels.nodes, prices, prices.entries)
      ensures r.Ok? ==>
                && Parts() && r.value < |s.ln| && !s.ln[r.value].active && |levels.stack| == old(|levels.stack|) - 1
                && Snapshot() == s.(ln := s.ln[r.value := OpenLevel(price)], prices := s.prices[price := r.value])
    {
      hide Table.Valid, LevelArena.Valid, OrderArena.Valid, Structure, Indexed;
      PricesSize(s);
      r := levels.Allocate(price);
      if r.Err? { return; }
      prices.CapIs();
      // The index has room for every level slot, so this insert cannot fail.
      var inserted := prices.Insert(price, r.value);
      assert inserted.Ok?;
    }

    // Put the fresh level l in its place on the ladder; s is the snapshot before it was taken.
    method LinkOpened(l: nat, price: nat, isSell: bool, ghost s: Rep) returns (ghost k: nat)
      requires Parts() && Inv(s) && l < |s.ln| && !s.ln[l].active
      requires Snapshot() == s.(ln := s.ln[l := OpenLevel(price)], prices := s.prices[price := l])
      requires Sorted(Side(s, isSell), isSell) && !HasPrice(Side(s, isSell), price)
      modifies this`bestBid, this`bestAsk, this`bids, this`asks, levels.nodes
      ensures Opens(s, isSell, k, l, price) && Parts() && Snapshot() == OpenRep(s, isSell, k, l, price)
    {
      hide Table.Valid, LevelArena.Valid, OrderArena.Valid, Structure, Indexed, Side, LinkLevels, Sorted, HasPrice;
      hide LadderOk, LinksAt, Opens, Before;
      ghost var a := Ladder(s, isSell);
      LadderIsOk(s, isSell, price);
      LadderStays(s.ln, a, l, price, isSell);
      k := LinkPriceLevel(l, isSell, a);
      LinksToSide(s, isSell, k, l, price);
      if isSell { asks := Insert(a, k, l); } else { bids := Insert(a, k, l); }
    }

    // Open a level at a new price and put it in its place on the ladder; s is the snapshot before.
    method OpenPrice(price: nat, isSell: bool, ghost s: Rep) returns (r: Result<nat>, ghost k: nat)
      requires Sound() && s == Snapshot() && price !in prices.Contents
      requires Sorted(Side(s, isSell), isSell) && !HasPrice(Side(s, isSell), price)
      modifies this, levels, levels.nodes, prices, prices.entries
      ensures r == if old(levels.stack) == [] then Err(EngineFull) else Ok(Last(old(levels.stack)))
      ensures r.Err? ==> unchanged(this, levels, levels.nodes, prices, prices.entries)
      ensures r.Ok? ==>
                Opens(s, isSell, k, r.value, price) && Parts() && Snapshot() == OpenRep(s, isSell, k, r.value, price)
      ensures r.Ok? ==> |levels.stack| == old(|levels.stack|) - 1
      ensures tradeSeq == old(tradeSeq) && orderSeq == old(orderSeq) && leaked == old(leaked)
    {
      hide Table.Valid, LevelArena.Valid, OrderArena.Valid, Inv, Side, Sorted, HasPrice, Opens, OpenRep;
      k := 0;
      r := TakeLevel(price, s);
      if r.Ok? {
        k := LinkOpened(r.value, price, isSell, s);
      }
    }

    // ----- Sweeping one side --------------------------------------------------------------------

    // The best level of a side, which is the first of its ladder.
    lemma {:induction false} BestOf(isSell: bool)
      requires Sound()
      ensures var best := if isSell then bestAsk else bestBid;
              && |Side(Snapshot(), isSell)| == |Ladder(Snapshot(), isSell)|
              && (best == NULL_IDX <==> Side(Snapshot(), isSell) == [])
              && (best != NULL_IDX ==> best < levels.nodes.Length && best == Ladder(Snapshot(), isSell)[0]
                                       && levels.nodes[best].price == Side(Snapshot(), isSell)[0].price)
    {
      hide Table.Valid, LevelArena.Valid, OrderArena.Valid, Linkable;
      if Ladder(Snapshot(), isSell) != [] {
        LadderNode(Snapshot(), isSell, 0);
        HeadFacts(isSell, 0);
      }
      hide Ladders, Prices, Queues, Homes, Indexed;
    }

    // Match against the best level of the side `opp`, and close it if that empties it.
    method SweepLevel(o: Order, qty: nat, clientId: nat, best: nat, buf: TradeBuffer, opp: bool, ghost lv: seq<Level>)
      returns (left: nat, stp: bool, ghost f: Fill)
      requires Sound() && lv == Side(Snapshot(), opp) && lv != []
      requires best == (if opp then bestAsk else bestBid)
      modifies Repr(), buf
      ensures f == MatchQueue(o, qty, clientId, lv[0].orders, old(clients.Contents), old(tradeSeq))
      ensures Sound()
      ensures left == f.left && stp == f.stp && clients.Contents == f.clients
      ensures buf.items == old(buf.items) + f.trades && tradeSeq == old(tradeSeq) + |f.trades|
      ensures Side(Snapshot(), opp) == NextLevels(lv, f.queue) && Side(Snapshot(), !opp) == old(Side(Snapshot(), !opp))
      ensures |orders.stack| + |f.queue| == old(|orders.stack|) + |lv[0].orders|
      ensures |levels.stack| + |NextLevels(lv, f.queue)| == old(|levels.stack|) + |lv|
      ensures orderSeq == old(orderSeq) && leaked == old(leaked)
    {
      hide Table.Valid, LevelArena.Valid, OrderArena.Valid, Structure, Indexed;
      hide Changed, Side, Ladder, MatchQueue, CloseRep;
      ghost var r := Snapshot();
      BestOf(opp);
      var price := levels.nodes[best].price;
      left, stp, f := MatchLevel(o, qty, clientId, best, buf, opp, 0, lv[0].orders);
      ghost var r1 := Snapshot();
      ChangedFirst(r, r1, opp, f.queue);
      HeadOf(opp, 0, f.queue);
      if levels.nodes[best].headOrder == NULL_IDX {
        EmptyLevel(r1, opp, 0);
        ghost var freeHead := levels.freeHead;
        CloseLevel(best, price, opp, 0);
        CloseInv(r1, opp, 0, freeHead);
      }
    }

    // Match an incoming order against the other side until it is used up, the price bound or the end
    // of the side is reached, or an own order is met.
    method MatchOpposite(o: Order, clientId: nat, buf: TradeBuffer)
      returns (left: nat, stp: bool, ghost s: Sweep)
      requires Sound()
      modifies Repr(), buf
      ensures s == Swept(old(Abs()), o, clientId)
      ensures Sound()
      ensures left == s.left && stp == s.stp
      ensures buf.items == old(buf.items) + s.trades
      ensures Abs() == AfterSweep(old(Abs()), o.IsSell(), s)
      ensures |orders.stack| + OrderCount(Abs()) == old(|orders.stack| + OrderCount(Abs()))
      ensures |levels.stack| + LevelCount(Abs()) == old(|levels.stack| + LevelCount(Abs()))
      ensures leaked == old(leaked)
    {
      hide Table.Valid, LevelArena.Valid, OrderArena.Valid, Inv, Side, Ladder;
      hide MatchSide, MatchQueue, NextLevels, Crosses, Flat, OrderCount, LevelCount, Sound, Snapshot, Abs;
      var opp := !o.IsSell();
      ghost var b := Abs();
      ghost var made: seq<Trade> := [];
      ghost var lv := Side(Snapshot(), opp);
      left, stp := o.qty, false;
      s := MatchSide(o, o.qty, clientId, lv, clients.Contents, tradeSeq);
      AbsIs();
      BestOf(opp);
      var best := if opp then bestAsk else bestBid;
      while left > 0 && best != NULL_IDX && !stp && Crosses(o, levels.nodes[best].price)
        invariant Sound() && lv == Side(Snapshot(), opp) && Side(Snapshot(), !opp) == old(Side(Snapshot(), !opp))
        invariant best == (if opp then bestAsk else bestBid)
        invariant best != NULL_IDX ==> best < levels.nodes.Length
        invariant s == if stp then Sweep(left, lv, clients.Contents, made, true)
                       else PrefixedSweep(made, MatchSide(o, left, clientId, lv, clients.Contents, tradeSeq))
        invariant buf.items == old(buf.items) + made && tradeSeq == old(tradeSeq) + |made|
        invariant orderSeq == old(orderSeq) && leaked == old(leaked)
        invariant |orders.stack| + |Flat(lv)| == old(|orders.stack|) + |Flat(old(Side(Snapshot(), opp)))|
        invariant |levels.stack| + |lv| == old(|levels.stack|) + |old(Side(Snapshot(), opp))|
        decreases |lv| + left, !stp
      {
        BestOf(opp);
        ghost var before, qty := lv, left;
        SweepStep(o, left, clientId, lv, clients.Contents, tradeSeq, made);
        ghost var f;
        left, stp, f := SweepLevel(o, left, clientId, best, buf, opp, lv);
        FlatNext(lv, f.queue);
        lv := NextLevels(lv, f.queue);
        made := made + f.trades;
        BestOf(opp);
        best := if opp then bestAsk else bestBid;
      }
      BestOf(opp);
      if !stp { SweepStops(o, left, clientId, lv, clients.Contents, tradeSeq, made); }
      AbsIs();
      CountsOf(b, Abs(), opp);
    }

    // ----- Resting an order ---------------------------------------------------------------------

    // Queue node i on level l and enter it in both indices; s is the snapshot before.
    method Enqueue(l: nat, i: nat, ghost isSell: bool, ghost k: nat, ghost s: Rep)
      requires Sound() && s == Snapshot() && k < |Ladder(s, isSell)| && l == Ladder(s, isSell)[k]
      requires i < |s.on| && s.on[i].active && Unqueued(s, i)
      requires l < |s.ln| && s.ln[l].price == s.on[i].order.price && s.on[i].order.id !in s.ids
      requires |clients.Contents| < MAX_ARENA_ORDERS
      modifies this`queues, levels.nodes, orders.nodes, ids, ids.entries, clients, clients.entries
      ensures Sound() && |Side(s, isSell)| == |Ladder(s, isSell)|
      ensures Changed(s, Snapshot(), isSell, k, Side(s, isSell)[k].orders + [At(s.on, i)])
      ensures clients.Contents == old(clients.Contents)[KeyOf(At(s.on, i)) := s.on[i].order.id]
    {
      hide Table.Valid, LevelArena.Valid, OrderArena.Valid, Inv, Changed, Side, PushNodes, PushLevel, QueueAt, Unqueued;
      SideSize(s, isSell);
      TailLinkable(s, isSell, k);
      IdsSize(s);
      EnqueueStep(s, isSell, k, i);
      ids.CapIs();
      clients.CapIs();
      var order := orders.nodes[i].order;
      assert orders.nodes[..][i] == orders.nodes[i] && levels.nodes[..][l] == levels.nodes[l];
      levels.PushOrder(l, i, orders);
      queues := queues[l := queues[l] + [i]];
      // Both indices have room for every order slot, so neither insert can fail.
      var entered := ids.Insert(order.id, EntryOf(order, i));
      assert entered.Ok?;
      var known := clients.Insert((order.userId, order.clientOrderId), order.id);
      assert known.Ok?;
    }

    // The level of a price, opened if the price is new; s is the snapshot before. Adding r to the queue
    // of that level is what Place does to the side.
    method LevelFor(price: nat, isSell: bool, ghost s: Rep, ghost r: Resting) returns (res: Result<nat>, ghost k: nat)
      requires Sound() && s == Snapshot() && r.order.price == price
      requires Sorted(Side(s, isSell), isSell)
      requires price in s.prices ==> OnOwnSide(s, isSell, price)
      requires price !in s.prices ==> !HasPrice(Side(s, isSell), price)
      modifies this, levels, levels.nodes, prices, prices.entries
      ensures Sound()
      ensures res.Err? <==> !HasPrice(Side(s, isSell), price) && old(levels.stack) == []
      ensures res.Err? ==> res.error == EngineFull && Snapshot() == s
      ensures res.Ok? ==> Ready(s, Snapshot(), isSell, k, res.value, r)
      ensures |levels.stack| + |Side(Snapshot(), isSell)| == old(|levels.stack|) + |Side(s, isSell)|
      ensures tradeSeq == old(tradeSeq) && orderSeq == old(orderSeq) && leaked == old(leaked)
    {
      hide Table.Valid, LevelArena.Valid, OrderArena.Valid, Inv, Place, HasPrice;
      hide OpenRep, Sorted, Ready, Opens, Side, Ladder;
      var level := prices.Lookup(price);
      if level.Some? {
        k := ReadyToJoin(s, isSell, price, r);
        return Ok(level.value), k;
      }
      res, k := OpenPrice(price, isSell, s);
      if res.Ok? {
        ReadyAfterOpen(s, isSell, k, res.value, r);
        assert Inv(Snapshot());
      } else {
        assert Parts() && Snapshot() == s;
      }
    }

    // Queue node i, which holds r, on its level; s is the snapshot before the level was found or opened.
    method Join(l: nat, i: nat, ghost isSell: bool, ghost k: nat, ghost s: Rep, ghost r: Resting)
      requires Sound() && Ready(s, Snapshot(), isSell, k, l, r) && Unqueued(s, i)
      requires i < |s.on| && s.on[i].active && At(s.on, i) == r && r.order.id !in s.ids
      requires |clients.Contents| < MAX_ARENA_ORDERS
      modifies this`queues, levels.nodes, orders.nodes, ids, ids.entries, clients, clients.entries
      ensures Sound()
      ensures Side(Snapshot(), isSell) == Place(Side(s, isSell), r, isSell)
      ensures Side(Snapshot(), !isSell) == Side(s, !isSell)
      ensures |Side(Snapshot(), isSell)| == old(|Side(Snapshot(), isSell)|)
      ensures |Flat(Side(Snapshot(), isSell))| == |Flat(Side(s, isSell))| + 1
      ensures clients.Contents == old(clients.Contents)[KeyOf(r) := r.order.id]
    {
      hide Table.Valid, LevelArena.Valid, OrderArena.Valid, Inv, Place, Unqueued, Side, Changed, Ready, Flat, Ladder;
      ghost var s2 := Snapshot();
      ReadyQueues(s, s2, isSell, k, l, r, i);
      Enqueue(l, i, isSell, k, s2);
      ReadyPlaces(s, s2, Snapshot(), isSell, k, l, r);
    }

    // Take an order slot; s is the snapshot before.
    method TakeSlot(o: Order, clientId: nat, ghost s: Rep) returns (slot: Result<nat>)
      requires Sound() && s == Snapshot()
      modifies orders, orders.nodes
      ensures Sound() && (slot.Err? <==> old(orders.stack) == [])
      ensures slot.Err? ==> slot.error == EngineFull && Snapshot() == s && |orders.stack| == old(|orders.stack|)
      ensures slot.Ok? ==> Took(s, Snapshot(), o, clientId, slot.value) && |orders.stack| == old(|orders.stack|) - 1
    {
      hide Table.Valid, LevelArena.Valid, OrderArena.Valid, Inv, Unqueued, Side, OnOwnSide;
      slot := orders.Allocate(o, clientId);
      if slot.Ok? {
        AllocReady(s, slot.value, OrderNode(o, NULL_IDX, NULL_IDX, clientId, true), o.price, o.IsSell());
      } else {
        assert Snapshot() == s;
      }
    }

    // The slot of an order that finds no level is lost.
    ghost method Leak()
      requires Sound()
      modifies this`leaked
      ensures Sound() && Snapshot() == old(Snapshot()) && leaked == old(leaked) + 1
    {
      hide Table.Valid, LevelArena.Valid, OrderArena.Valid, Inv;
      leaked := leaked + 1;
    }

    // Find or open the level of an order whose slot is taken, and queue the order there.
    method RestAt(i: nat, resting: Resting, ghost s: Rep) returns (r: Result<()>)
      requires Sound() && i < |Snapshot().on| && Took(s, Snapshot(), resting.order, resting.clientId, i)
      requires RestReady(s, resting.order) && |clients.Contents| < MAX_ARENA_ORDERS
      modifies Repr()
      ensures Sound() && (r.Err? ==> r.error == EngineFull)
      ensures r.Err? <==> !HasPrice(Side(s, resting.order.IsSell()), resting.order.price) && old(levels.stack) == []
      ensures Side(Snapshot(), !resting.order.IsSell()) == Side(s, !resting.order.IsSell())
      ensures Side(Snapshot(), resting.order.IsSell()) ==
              if r.Ok? then Place(Side(s, resting.order.IsSell()), resting, resting.order.IsSell())
              else Side(s, resting.order.IsSell())
      ensures clients.Contents ==
              if r.Ok? then old(clients.Contents)[KeyOf(resting) := resting.order.id] else old(clients.Contents)
      ensures |Flat(Side(Snapshot(), resting.order.IsSell()))| ==
              |Flat(Side(s, resting.order.IsSell()))| + if r.Ok? then 1 else 0
      ensures |levels.stack| + |Side(Snapshot(), resting.order.IsSell())| ==
              old(|levels.stack|) + |Side(s, resting.order.IsSell())|
      ensures tradeSeq == old(tradeSeq) && orderSeq == old(orderSeq) && |orders.stack| == old(|orders.stack|)
      ensures leaked == old(leaked) + if r.Ok? then 0 else 1
    {
      hide Table.Valid, LevelArena.Valid, OrderArena.Valid, Inv, Place, HasPrice, Unqueued, Sorted, Side, OnOwnSide;
      hide Changed, Ready, Flat, Ladder, Snapshot, Abs, Parts, Sound;
      ghost var s1 := Snapshot();
      var level;
      ghost var k;
      level, k := LevelFor(resting.order.price, resting.order.IsSell(), s1, resting);
      if level.Err? {
        Leak();
        return Err(EngineFull);
      }
      Join(level.value, i, resting.order.IsSell(), k, s1, resting);
      r := Ok(());
    }

    // Rest a limit order: take an order slot, join or open its level, enter both indices.
    method RestOrder(o: Order, clientId: nat) returns (r: Result<()>)
      requires Valid() && Clear(Abs(), o.price, o.IsSell())
      requires forall x :: x in Orders(Abs()) ==> x.order.id != o.id
      modifies Repr()
      ensures Sound()
      ensures (Abs(), r) == Rest(old(Abs()), Resting(o, clientId))
      ensures Slots()
    {
      hide Table.Valid, LevelArena.Valid, OrderArena.Valid, Inv, Wf, Place, Clear, HasPrice, Unqueued, Sorted;
      hide Side, OnOwnSide, Changed, Ready, RestReady, Flat, Rest, OrderCount, LevelCount, Ladder, Snapshot, Abs, Parts;
      ghost var b, s := Abs(), Snapshot();
      var resting := Resting(o, clientId);
      AbsIs();
      RestFacts(b, s, o);
      Counted(b);
      var slot := TakeSlot(o, clientId, s);
      AbsIs();
      if slot.Err? {
        RestFull(b, resting);
        return Err(EngineFull);
      }
      r := RestAt(slot.value, resting, s);
      AbsIs();
      Counted(Abs());
      if r.Ok? {
        RestPlaces(b, Abs(), resting);
        assert r.value == ();
      } else {
        RestNoLevel(b, resting);
      }
    }

    // ----- Cancelling ---------------------------------------------------------------------------

    // Take the order at position j of a level's queue, node i, off the queue.
    method UnqueueOrder(l: nat, i: nat, ghost j: nat)
      requires Parts() && l < levels.nodes.Length && i < orders.nodes.Length < NULL_IDX
      requires l < |queues| && j < |queues[l]| && queues[l][j] == i && orders.nodes[i].active
      requires Linkable(orders.nodes[..], orders.nodes[i].prev) && Linkable(orders.nodes[..], orders.nodes[i].next)
      modifies this`queues, orders.nodes, levels.nodes
      ensures Parts() && Snapshot() == UnlinkRep(old(Snapshot()), l, j)
    {
      hide Table.Valid, LevelArena.Valid, OrderArena.Valid, UnlinkLevel, UnlinkNodes, Linkable, Without;
      assert orders.nodes[..][i] == orders.nodes[i] && levels.nodes[..][l] == levels.nodes[l];
      levels.UnlinkOrder(l, i, orders);
      queues := queues[l := Without(queues[l], j)];
    }

    // Remove a resting order from the book, and its level if that leaves it empty; s is the snapshot before.
    method RemoveOrder(l: nat, i: nat, order: Order, price: nat, isSell: bool, ghost k: nat, ghost j: nat, ghost s: Rep)
      requires Sound() && s == Snapshot() && k < |Ladder(s, isSell)| && l == Ladder(s, isSell)[k]
      requires l < |s.ln| && s.ln[l].price == price && l < |s.queues| && j < |s.queues[l]| && s.queues[l][j] == i
      requires i < |s.on| && s.on[i].order == order
      modifies Repr()
      ensures Sound() && k < |Side(s, isSell)| && j < |Side(s, isSell)[k].orders|
      ensures Side(Snapshot(), isSell) == WithoutOrder(Side(s, isSell), k, j)
      ensures Side(Snapshot(), !isSell) == Side(s, !isSell)
      ensures clients.Contents == old(clients.Contents) - {(order.userId, order.clientOrderId)}
      ensures |orders.stack| == old(|orders.stack|) + 1
      ensures |levels.stack| + |Side(Snapshot(), isSell)| == old(|levels.stack|) + |Side(s, isSell)|
      ensures tradeSeq == old(tradeSeq) && orderSeq == old(orderSeq) && leaked == old(leaked)
    {
      hide Table.Valid, LevelArena.Valid, OrderArena.Valid, Inv, Structure;
      hide Changed, Side, Linkable, UnlinkNodes, CloseRep;
      InvStructure(s);
      QueueNode(s, l, j);
      PlaceOf(s, isSell, k, j);
      UnlinkActive(s.on, i);
      UnlinkStep(s, isSell, k, j);
      UnqueueOrder(l, i, j);
      ghost var s1 := Snapshot();
      UnlinkedFacts(s, s1, isSell, k, l, j);
      if levels.nodes[l].headOrder == NULL_IDX {
        ghost var levelHead, freeHead := levels.freeHead, orders.freeHead;
        RemoveLastStep(s, isSell, k, levelHead, freeHead);
        CloseLevel(l, price, isSell, k);
        CloseKeepsNodes(s1, isSell, k, levelHead);
        Forget(i, order);
      } else {
        RemoveStep(s, isSell, k, j, orders.freeHead);
        Forget(i, order);
      }
      RemovedSide(s, Snapshot(), isSell, k, j);
    }

    // The index entry an order id stands for: its own or, failing that, that of the requester's client id.
    method Resolve(userId: nat, orderId: nat) returns (id: nat, entry: Option<IndexEntry>)
      requires Valid()
      ensures entry.None? ==> CancelOrder(Abs(), userId, orderId) == (Abs(), Err(OrderNotFound))
      ensures entry.Some? ==>
              id in Snapshot().ids && Snapshot().ids[id] == entry.value && Leads(Abs(), userId, orderId, id)
    {
      hide Table.Valid, LevelArena.Valid, OrderArena.Valid, Inv, Wf, Side, Flat, CancelOrder, FindIn;
      SideIsAbs();
      LocateFacts(Abs(), Snapshot(), userId, orderId);
      id := orderId;
      entry := ids.Lookup(orderId);
      if entry.None? {
        var exchangeId := clients.Lookup((userId, orderId));
        if exchangeId.Some? {
          id := exchangeId.value;
          entry := ids.Lookup(id);
        }
      }
    }

    // Cancel by exchange id or, failing that, by the requester's own client order id.
    method Cancel(userId: nat, orderId: nat) returns (r: Result<Order>)
      requires Valid()
      modifies Repr()
      ensures Valid()
      ensures (Abs(), r) == CancelOrder(old(Abs()), userId, orderId)
    {
      hide Table.Valid, LevelArena.Valid, OrderArena.Valid, Inv, Wf, Side;
      hide Flat, CancelOrder, WithoutOrder, Delete, Leads, Ladder;
      ghost var b, s := Abs(), Snapshot();
      AbsIs();
      var id, entry := Resolve(userId, orderId);
      if entry.None? {
        return Err(OrderNotFound);
      }
      var e := entry.value;
      ghost var isSell, k, j := CancelFacts(b, s, id);
      CancelFound(b, userId, orderId, id, At(s.on, e.nodeIdx));
      if e.userId != userId {
        return Err(Unauthorized);
      }
      // The entry is never stale: its node is active and still carries this id.
      assert orders.nodes[e.nodeIdx].active && orders.nodes[e.nodeIdx].order.id == id;
      var order := orders.nodes[e.nodeIdx].order;
      var level := prices.Lookup(e.price);
      hide Snapshot, Abs, Parts;
      RemoveOrder(level.value, e.nodeIdx, order, e.price, e.side == 1, k, j, s);
      AbsIs();
      CancelledCounts(b, Abs(), userId, orderId, order.id);
      Counted(b);
      Counted(Abs());
      r := Ok(order);
    }

    // ----- Processing ---------------------------------------------------------------------------

    // The exchange's own id for an order that brings none.
    method NextOrderId() returns (id: nat)
      requires Valid()
      modifies this`orderSeq
      ensures Valid() && id == old(orderSeq)
      ensures Abs() == old(Abs()).(orderSeq := id + 1)
    {
      hide Table.Valid, LevelArena.Valid, OrderArena.Valid, Inv, Bids, Asks;
      ghost var b := Abs();
      SeqKeepsWf(b, orderSeq + 1);
      id := orderSeq;
      orderSeq := orderSeq + 1;
      assert OrderCount(Abs()) == OrderCount(b) && LevelCount(Abs()) == LevelCount(b);
    }

    // Stamp an order that brings no id, and count the id of one that does.
    method StampOrder(o: Order) returns (order: Order)
      requires Sound() && Slots()
      modifies this`orderSeq
      ensures Sound() && Slots() && order == Stamp(old(Abs()), o)
      ensures Abs() == old(Abs()).(orderSeq := StampedSeq(old(Abs()), o))
      ensures order == o.(id := if o.id == 0 then old(orderSeq) else o.id) && order.id < orderSeq
      ensures orderSeq == if o.id == 0 then old(orderSeq) + 1 else Max(old(orderSeq), o.id + 1)
    {
      hide Table.Valid, LevelArena.Valid, OrderArena.Valid, Inv, Bids, Asks, OrderCount, LevelCount;
      ghost var b := Abs();
      order := o;
      if o.id == 0 {
        order := o.(id := orderSeq);
        orderSeq := orderSeq + 1;
      } else {
        orderSeq := Max(orderSeq, o.id + 1);
      }
      SameOrdersOf(b, Abs());
    }

    // Submit a limit or market order: stamp it, match it, and rest what is left of a limit order.
    method SubmitOrder(o: Order, clientId: nat, buf: TradeBuffer) returns (r: Result<ExecutionReport>)
      requires Valid() && FreshId(Abs(), o)
      modifies Repr(), buf
      ensures Valid()
      ensures var out := Submit(old(Abs()), o, clientId);
              Abs() == out.book && r == out.result && buf.items == old(buf.items) + out.trades
    {
      hide Table.Valid, LevelArena.Valid, OrderArena.Valid, Inv, Wf, Bids;
      hide Asks, MatchSide, Orders, OrderCount, LevelCount;
      hide Rest, Clear, Crosses, Submit, Swept, AfterSweep, Sound, Abs;
      ghost var b := Abs();
      SubmitFacts(b, o, clientId);
      SubmitIs(b, o, clientId);
      var order := StampOrder(o);
      var left, stp;
      ghost var s;
      left, stp, s := MatchOpposite(order, clientId, buf);
      var report := ExecutionReport(SatSub(o.qty, left), left, stp);
      if stp {
        return Ok(report);
      }
      if o.Kind() == Market {
        return Ok(report);
      }
      if left > 0 && o.Kind() == Limit {
        var rested := RestOrder(order.(qty := left), clientId);
        if rested.Err? {
          return Err(rested.error);
        }
      }
      r := Ok(report);
    }

    method Process(o: Order, clientId: nat, buf: TradeBuffer) returns (r: Result<ExecutionReport>)
      requires Valid() && (o.Kind() != OrderType.Cancel ==> FreshId(Abs(), o))
      modifies Repr(), buf
      ensures Valid()
      ensures var out := Matcher.Process(old(Abs()), o, clientId);
              Abs() == out.book && r == out.result && buf.items == old(buf.items) + out.trades
    {
      hide Valid, Abs, CancelOrder, Submit;
      if o.Kind() == OrderType.Cancel {
        var cancelled := Cancel(o.userId, if o.id != 0 then o.id else o.clientOrderId);
        if cancelled.Err? {
          return Err(cancelled.error);
        }
        return Ok(ExecutionReport(0, cancelled.value.qty, false));
      }
      r := SubmitOrder(o, clientId, buf);
    }

    // ----- Market data --------------------------------------------------------------------------

    // The first n levels of a side, read off the ladder.
    method DepthOf(isSell: bool, n: nat) returns (d: seq<MarketDepthLevel>)
      requires Valid()
      ensures d == Depth(if isSell then Abs().asks else Abs().bids, n)
    {
      hide Table.Valid, LevelArena.Valid, OrderArena.Valid, Inv, Wf, Side, DepthLevel, Depth, Ladder;
      ghost var s := Snapshot();
      ghost var side, ladder := Side(s, isSell), Ladder(s, isSell);
      SideIsAbs();
      BestOf(isSell);
      assert Inv(s) && s.ln == levels.nodes[..];
      hide Valid, Abs, Snapshot;
      d := [];
      DepthNone(side);
      var curr := if isSell then bestAsk else bestBid;
      while curr != NULL_IDX && |d| < n
        invariant |d| <= |side| == |ladder| && |d| <= n && d == Depth(side, |d|)
        invariant curr == if |d| < |side| then ladder[|d|] else NULL_IDX
        decreases n - |d|
      {
        if |d| < |side| { DepthNode(s, isSell, |d|); }
        DepthMore(side, |d|);
        var node := levels.nodes[curr];
        d := d + [MarketDepthLevel(node.price, node.totalQty, node.orderCount)];
        curr := node.nextLevel;
      }
      if |d| < |side| { DepthNode(s, isSell, |d|); } else { DepthEnds(side, |d|, n); }
    }

    method GetDepth(n: nat) returns (bidDepth: seq<MarketDepthLevel>, askDepth: seq<MarketDepthLevel>)
      requires Valid()
      ensures bidDepth == Depth(Abs().bids, n) && askDepth == Depth(Abs().asks, n)
    {
      hide Table.Valid, LevelArena.Valid, OrderArena.Valid, Inv, Wf, Bids, Asks, OrderCount, LevelCount, Depth;
      bidDepth := DepthOf(false, n);
      askDepth := DepthOf(true, n);
    }

    // The best price and its total quantity on each side.
    method GetBbo() returns (bid: Option<(nat, nat)>, ask: Option<(nat, nat)>)
      requires Valid()
      ensures bid == Best(Abs().bids) && ask == Best(Abs().asks)
    {
      hide Table.Valid, LevelArena.Valid, OrderArena.Valid, Inv, Wf, Side, Volume;
      SideIsAbs();
      BestOf(false);
      BestOf(true);
      bid, ask := None, None;
      if bestBid != NULL_IDX {
        DepthNode(Snapshot(), false, 0);
        bid := Some((levels.nodes[bestBid].price, levels.nodes[bestBid].totalQty));
      }
      if bestAsk != NULL_IDX {
        DepthNode(Snapshot(), true, 0);
        ask := Some((levels.nodes[bestAsk].price, levels.nodes[bestAsk].totalQty));
      }
    }
  }
}
