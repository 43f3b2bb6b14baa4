/** How the arenas and indices of an order book represent a book of levels and orders.
    A `Rep` is a snapshot of the stored fields together with the ghost shape of the lists; each step of
    the engine is one lemma about how a snapshot changes. */
module BookRep {
  import opened Types
  import opened Arena
  import opened Links
  import opened LevelStore
  import opened Matcher

  // What the order index stores for an order id.
  datatype IndexEntry = IndexEntry(clientOrderId: nat, userId: nat, price: nat, nodeIdx: nat, side: nat)

  datatype Rep = Rep(
    on: seq<OrderNode>,
    ln: seq<PriceLevelNode>,
    bestBid: nat,
    bestAsk: nat,
    bids: seq<nat>,           // level indices, best first
    asks: seq<nat>,
    queues: seq<seq<nat>>,    // per level, order node indices, oldest first
    prices: map<nat, nat>,    // contents of the price index
    ids: map<nat, IndexEntry> // contents of the order index
    )

  function EntryOf(o: Order, i: nat): IndexEntry {
    IndexEntry(o.clientOrderId, o.userId, o.price, i, o.side)
  }

  // ----- The invariant, part by part --------------------------------------------------------------

  // Both ladders are linked from their heads; the active levels are the ladders' levels.
  ghost predicate Ladders(ln: seq<PriceLevelNode>, bids: seq<nat>, asks: seq<nat>) {
    && Linked(LevelPrev(ln), LevelNext(ln), bids)
    && Linked(LevelPrev(ln), LevelNext(ln), asks)
    && (forall l {:trigger ln[l]} :: 0 <= l < |ln| ==> (ln[l].active <==> l in bids || l in asks))
    && (forall l :: l in bids ==> l !in asks)
  }

  // The price index maps each price to the one active level with that price.
  ghost predicate Prices(ln: seq<PriceLevelNode>, prices: map<nat, nat>) {
    && (forall l {:trigger ln[l]} :: 0 <= l < |ln| && ln[l].active ==>
         ln[l].price in prices && prices[ln[l].price] == l)
    && (forall p {:trigger prices[p]} :: p in prices ==>
         prices[p] < |ln| && ln[prices[p]].active && ln[prices[p]].price == p)
  }

  ghost predicate Queues(on: seq<OrderNode>, ln: seq<PriceLevelNode>, queues: seq<seq<nat>>) {
    && |queues| == |ln|
    && forall l {:trigger queues[l]} {:trigger ln[l]} :: 0 <= l < |ln| ==>
         if ln[l].active then QueueAt(on, queues[l], ln[l]) else queues[l] == []
  }

  // Every queued order carries the price of its level.
  ghost predicate Homes(on: seq<OrderNode>, ln: seq<PriceLevelNode>, queues: seq<seq<nat>>) {
    && |queues| == |ln|
    && forall l, k {:trigger queues[l][k]} :: 0 <= l < |ln| && 0 <= k < |queues[l]| ==>
         queues[l][k] < |on| && on[queues[l][k]].order.price == ln[l].price
  }

  // The order index holds exactly the queued orders.
  ghost predicate Indexed(on: seq<OrderNode>, queues: seq<seq<nat>>, prices: map<nat, nat>, ids: map<nat, IndexEntry>) {
    && (forall l, k {:trigger queues[l][k]} :: 0 <= l < |queues| && 0 <= k < |queues[l]| ==>
         Registered(on, queues[l][k], ids))
    && (forall id {:trigger ids[id]} :: id in ids ==> Stored(on, queues, prices, ids[id], id))
  }

  ghost predicate Registered(on: seq<OrderNode>, i: nat, ids: map<nat, IndexEntry>) {
    i < |on| && on[i].order.id in ids && ids[on[i].order.id] == EntryOf(on[i].order, i)
  }

  ghost predicate Stored(on: seq<OrderNode>, queues: seq<seq<nat>>, prices: map<nat, nat>, e: IndexEntry, id: nat) {
    && e.nodeIdx < |on|
    && on[e.nodeIdx].order.id == id
    && on[e.nodeIdx].order.price in prices
    && prices[on[e.nodeIdx].order.price] < |queues|
    && e.nodeIdx in queues[prices[on[e.nodeIdx].order.price]]
  }

  // Lists and price index; and with the order index, everything.
  ghost predicate Structure(r: Rep) {
    && r.bestBid == First(r.bids) && r.bestAsk == First(r.asks)
    && Ladders(r.ln, r.bids, r.asks)
    && Prices(r.ln, r.prices)
    && Queues(r.on, r.ln, r.queues)
    && Homes(r.on, r.ln, r.queues)
  }

  ghost predicate Inv(r: Rep) {
    Structure(r) && Indexed(r.on, r.queues, r.prices, r.ids)
  }

  // ----- The book a snapshot stands for -----------------------------------------------------------

  function At(on: seq<OrderNode>, i: nat): Resting {
    if i < |on| then Resting(on[i].order, on[i].clientId) else Resting(DEFAULT_ORDER, 0)
  }

  function AbsQueue(on: seq<OrderNode>, q: seq<nat>): seq<Resting> {
    seq(|q|, k requires 0 <= k < |q| => At(on, q[k]))
  }

  function AbsLevel(on: seq<OrderNode>, ln: seq<PriceLevelNode>, queues: seq<seq<nat>>, l: nat): Level {
    if l < |ln| && l < |queues| then Level(ln[l].price, AbsQueue(on, queues[l])) else Level(0, [])
  }

  function AbsSide(on: seq<OrderNode>, ln: seq<PriceLevelNode>, queues: seq<seq<nat>>, ladder: seq<nat>): seq<Level> {
    seq(|ladder|, k requires 0 <= k < |ladder| => AbsLevel(on, ln, queues, ladder[k]))
  }

  function Bids(r: Rep): seq<Level> { AbsSide(r.on, r.ln, r.queues, r.bids) }

  function Asks(r: Rep): seq<Level> { AbsSide(r.on, r.ln, r.queues, r.asks) }

  // ----- A change to the queue of one level -------------------------------------------------------

  // Only level l, its queued nodes, and nodes newly queued on it differ; no order changes but in quantity.
  ghost predicate LevelStep(r: Rep, r': Rep, l: nat) {
    && l < |r.ln| == |r.queues| && r.ln[l].active
    && r' == r.(on := r'.on, ln := r'.ln, queues := r'.queues)
    && |r'.ln| == |r.ln| && |r'.queues| == |r.queues| && |r'.on| == |r.on|
    && r'.ln[l] == r.ln[l].(headOrder := r'.ln[l].headOrder, tailOrder := r'.ln[l].tailOrder,
                            totalQty := r'.ln[l].totalQty, orderCount := r'.ln[l].orderCount)
    && (forall m {:trigger r'.ln[m]} {:trigger r.ln[m]} :: 0 <= m < |r.ln| && m != l ==> r'.ln[m] == r.ln[m])
    && (forall m {:trigger r'.queues[m]} {:trigger r.queues[m]} :: 0 <= m < |r.queues| && m != l ==>
         r'.queues[m] == r.queues[m])
    && (forall i {:trigger r'.on[i]} :: 0 <= i < |r.on| && i !in r.queues[l] && i !in r'.queues[l] ==>
         r'.on[i] == r.on[i])
    && (forall m, k {:trigger r.queues[m][k]} :: 0 <= m < |r.queues| && m != l && 0 <= k < |r.queues[m]| ==>
          r.queues[m][k] !in r'.queues[l])
    && QueueAt(r'.on, r'.queues[l], r'.ln[l])
    && (forall k {:trigger r'.queues[l][k]} :: 0 <= k < |r'.queues[l]| ==>
          r'.queues[l][k] < |r'.on| && r'.on[r'.queues[l][k]].order.price == r'.ln[l].price)
  }

  // Queues of two different levels share no node.
  lemma QueuesDisjoint(r: Rep, l: nat, m: nat, k: nat)
    requires Prices(r.ln, r.prices) && Homes(r.on, r.ln, r.queues)
    requires l < |r.ln| && m < |r.ln| && l != m && r.ln[l].active && r.ln[m].active && k < |r.queues[m]|
    ensures r.queues[m][k] !in r.queues[l]
  {
    assert forall j :: 0 <= j < |r.queues[l]| ==> r.on[r.queues[l][j]].order.price == r.ln[l].price;
  }

  // Nodes queued elsewhere are untouched.
  lemma OthersUntouched(r: Rep, r': Rep, l: nat, m: nat, k: nat)
    requires Structure(r) && LevelStep(r, r', l) && m < |r.ln| && m != l && k < |r.queues[m]|
    ensures r.queues[m][k] < |r.on| && r'.on[r.queues[m][k]] == r.on[r.queues[m][k]]
  {
    hide QueueAt, Ladders;
    assert r.ln[m].active by { assert r.queues[m] != []; }
    assert r.queues[m][k] < |r.on|;
    QueuesDisjoint(r, l, m, k);
  }

  lemma LevelStepKeeps(r: Rep, r': Rep, l: nat)
    requires Structure(r) && LevelStep(r, r', l)
    ensures Structure(r')
  {
    hide QueueAt, Linked;
    assert LevelPrev(r'.ln) == LevelPrev(r.ln) && LevelNext(r'.ln) == LevelNext(r.ln);
    assert Ladders(r'.ln, r'.bids, r'.asks);
    assert Prices(r'.ln, r'.prices);
    assert Queues(r'.on, r'.ln, r'.queues) by { LevelStepQueues(r, r', l); }
    assert Homes(r'.on, r'.ln, r'.queues) by { LevelStepHomes(r, r', l); }
  }

  lemma LevelStepQueues(r: Rep, r': Rep, l: nat)
    requires Structure(r) && LevelStep(r, r', l)
    ensures Queues(r'.on, r'.ln, r'.queues)
  {
    hide QueueAt, Linked, Ladders, Homes, Prices;
    forall m | 0 <= m < |r.ln|
      ensures if r'.ln[m].active then QueueAt(r'.on, r'.queues[m], r'.ln[m]) else r'.queues[m] == []
    {
      if m != l && r.ln[m].active {
        forall k | 0 <= k < |r.queues[m]|
          ensures r.queues[m][k] < |r.on| && r'.on[r.queues[m][k]] == r.on[r.queues[m][k]]
        {
          OthersUntouched(r, r', l, m, k);
        }
        QueueFrame(r.on, r'.on, r.queues[m], r.ln[m], r'.ln[m]);
      }
    }
  }

  lemma LevelStepHomes(r: Rep, r': Rep, l: nat)
    requires Structure(r) && LevelStep(r, r', l)
    ensures Homes(r'.on, r'.ln, r'.queues)
  {
    hide QueueAt, Linked, Ladders, Prices;
    forall m, k | 0 <= m < |r.ln| && 0 <= k < |r'.queues[m]|
      ensures r'.queues[m][k] < |r'.on| && r'.on[r'.queues[m][k]].order.price == r'.ln[m].price
    {
      if m != l { OthersUntouched(r, r', l, m, k); }
    }
  }

  // The book before and after differ in level l alone.
  lemma LevelStepAbs(r: Rep, r': Rep, l: nat, ladder: seq<nat>)
    requires Structure(r) && LevelStep(r, r', l) && NoDup(ladder)
    requires forall k :: 0 <= k < |ladder| ==> ladder[k] < |r.ln|
    ensures var level := Level(r.ln[l].price, AbsQueue(r'.on, r'.queues[l]));
            forall k {:trigger ladder[k]} :: 0 <= k < |ladder| && ladder[k] == l ==>
              AbsSide(r'.on, r'.ln, r'.queues, ladder) == AbsSide(r.on, r.ln, r.queues, ladder)[k := level]
    ensures l !in ladder ==> AbsSide(r'.on, r'.ln, r'.queues, ladder) == AbsSide(r.on, r.ln, r.queues, ladder)
  {
    hide QueueAt, Linked, Ladders, Prices, Queues, Homes;
    forall j | 0 <= j < |ladder| && ladder[j] != l
      ensures AbsLevel(r'.on, r'.ln, r'.queues, ladder[j]) == AbsLevel(r.on, r.ln, r.queues, ladder[j])
    {
      var m := ladder[j];
      forall k | 0 <= k < |r.queues[m]| ensures At(r'.on, r.queues[m][k]) == At(r.on, r.queues[m][k]) {
        OthersUntouched(r, r', l, m, k);
      }
      assert AbsQueue(r'.on, r'.queues[m]) == AbsQueue(r.on, r.queues[m]);
    }
  }

  // ----- A change to a node that is on no queue ---------------------------------------------------

  ghost predicate Unqueued(r: Rep, i: nat) {
    forall l, k {:trigger r.queues[l][k]} :: 0 <= l < |r.queues| && 0 <= k < |r.queues[l]| ==> r.queues[l][k] != i
  }

  lemma InactiveIsUnqueued(r: Rep, i: nat)
    requires Structure(r) && i < |r.on| && !r.on[i].active
    ensures Unqueued(r, i)
  {
    hide Linked, Ladders, Prices, Homes;
    forall l, k | 0 <= l < |r.queues| && 0 <= k < |r.queues[l]| ensures r.queues[l][k] != i {
      assert r.queues[l] != [];
      assert QueueAt(r.on, r.queues[l], r.ln[l]);
    }
  }

  lemma NodeStepKeeps(r: Rep, r': Rep, i: nat)
    requires Structure(r) && Unqueued(r, i)
    requires r' == r.(on := r'.on) && |r'.on| == |r.on|
    requires forall j {:trigger r'.on[j]} :: 0 <= j < |r.on| && j != i ==> r'.on[j] == r.on[j]
    ensures Structure(r') && Bids(r') == Bids(r) && Asks(r') == Asks(r)
  {
    hide QueueAt, Linked, Ladders, Prices;
    forall l | 0 <= l < |r.queues|
      ensures if r.ln[l].active then QueueAt(r'.on, r.queues[l], r.ln[l]) else r.queues[l] == []
      ensures AbsQueue(r'.on, r.queues[l]) == AbsQueue(r.on, r.queues[l])
    {
      assert forall k :: 0 <= k < |r.queues[l]| ==> r.queues[l][k] != i && r.queues[l][k] < |r.on|;
      if r.ln[l].active { QueueFrame(r.on, r'.on, r.queues[l], r.ln[l], r.ln[l]); }
    }
    assert forall l :: AbsLevel(r'.on, r'.ln, r'.queues, l) == AbsLevel(r.on, r.ln, r.queues, l);
  }

  // ----- Opening and closing a level --------------------------------------------------------------

  function Ladder(r: Rep, isSell: bool): seq<nat> { if isSell then r.asks else r.bids }

  // r with another ladder on one side.
  function WithLadder(r: Rep, isSell: bool, q: seq<nat>): Rep {
    if isSell then r.(asks := q, bestAsk := First(q)) else r.(bids := q, bestBid := First(q))
  }

  // Levels that are active in both and differ in their links only keep their queues.
  lemma QueuesFrame(on: seq<OrderNode>, ln: seq<PriceLevelNode>, ln': seq<PriceLevelNode>, queues: seq<seq<nat>>,
                    l: nat)
    requires Queues(on, ln, queues) && SameLevels(ln, ln') && l < |ln|
    requires forall m, k {:trigger queues[m][k]} :: 0 <= m < |queues| && 0 <= k < |queues[m]| ==> queues[m][k] < |on|
    ensures Queues(on, ln', queues)
  {
    hide QueueAt;
    forall m | 0 <= m < |ln|
      ensures if ln'[m].active then QueueAt(on, queues[m], ln'[m]) else queues[m] == []
    {
      if ln[m].active { QueueFrame(on, on, queues[m], ln[m], ln'[m]); }
    }
  }

  function CloseRep(r: Rep, isSell: bool, k: nat, freeHead: nat): Rep
    requires k < |Ladder(r, isSell)| && Ladder(r, isSell)[k] < |r.ln|
  {
    var l := Ladder(r, isSell)[k];
    var ln := UnlinkLevels(r.ln, l);
    WithLadder(r, isSell, Without(Ladder(r, isSell), k))
      .(ln := ln[l := Retired(ln[l], freeHead)], prices := r.prices - {r.ln[l].price})
  }

  lemma LaddersClose(ln: seq<PriceLevelNode>, a: seq<nat>, b: seq<nat>, k: nat, freeHead: nat)
    requires Linked(LevelPrev(ln), LevelNext(ln), a) && Linked(LevelPrev(ln), LevelNext(ln), b)
    requires k < |a| && forall l :: l in a ==> l !in b
    ensures a[k] < |ln|
    ensures var un := UnlinkLevels(ln, a[k]);
            var ln' := un[a[k] := Retired(un[a[k]], freeHead)];
            && SameLevels(ln, un)
            && Linked(LevelPrev(ln'), LevelNext(ln'), Without(a, k)) && Linked(LevelPrev(ln'), LevelNext(ln'), b)
            && (forall m :: m in Without(a, k) <==> m in a && m != a[k])
  {
    LadderUnlink(ln, a, k);
    LinkedNoDup(LevelPrev(ln), LevelNext(ln), a);
    RemoveNoDup(a, k);
    LinkedSize(LevelPrev(ln), LevelNext(ln), b);
    hide Linked, NoDup, UnlinkLevels;
    var l := a[k];
    var un := UnlinkLevels(ln, l);
    var ln' := un[l := Retired(un[l], freeHead)];
    LinkedSize(LevelPrev(un), LevelNext(un), Without(a, k));
    assert l in a && l !in b && l !in Without(a, k);
    LinkedFrame(LevelPrev(un), LevelNext(un), LevelPrev(ln'), LevelNext(ln'), Without(a, k));
    LinkedFrame(LevelPrev(ln), LevelNext(ln), LevelPrev(ln'), LevelNext(ln'), b);
  }

  lemma HomesBound(r: Rep)
    requires Structure(r)
    ensures forall m, k {:trigger r.queues[m][k]} :: 0 <= m < |r.queues| && 0 <= k < |r.queues[m]| ==>
            r.queues[m][k] < |r.on|
  {
    hide Linked, QueueAt, Ladders, Prices;
  }

  lemma {:induction false} CloseKeeps(r: Rep, isSell: bool, k: nat, freeHead: nat)
    requires Structure(r) && k < |Ladder(r, isSell)|
    requires Ladder(r, isSell)[k] < |r.queues| && r.queues[Ladder(r, isSell)[k]] == []
    ensures Ladder(r, isSell)[k] < |r.ln| && Structure(CloseRep(r, isSell, k, freeHead))
  {
    hide Linked, QueueAt, NoDup, UnlinkLevels;
    var l := Ladder(r, isSell)[k];
    LaddersClose(r.ln, Ladder(r, isSell), Ladder(r, !isSell), k, freeHead);
    var r' := CloseRep(r, isSell, k, freeHead);
    var un := UnlinkLevels(r.ln, l);
    assert l in Ladder(r, isSell) && r.ln[l].active;
    assert Ladders(r'.ln, r'.bids, r'.asks) by { hide Prices, Queues, Homes; }
    hide Ladders;
    assert Prices(r'.ln, r'.prices) by { hide Queues, Homes; }
    HomesBound(r);
    hide Prices;
    assert Queues(r'.on, r'.ln, r'.queues) by {
      hide Homes;
      QueuesFrame(r.on, r.ln, un, r.queues, l);
    }
    assert Homes(r'.on, r'.ln, r'.queues) by { hide Queues; }
  }

  lemma {:induction false} CloseAbs(r: Rep, isSell: bool, k: nat, freeHead: nat)
    requires Structure(r) && k < |Ladder(r, isSell)| && Ladder(r, isSell)[k] < |r.ln|
    ensures var r' := CloseRep(r, isSell, k, freeHead);
            var s := AbsSide(r.on, r.ln, r.queues, Ladder(r, isSell));
            && AbsSide(r'.on, r'.ln, r'.queues, Ladder(r', isSell)) == s[..k] + s[k + 1..]
            && AbsSide(r'.on, r'.ln, r'.queues, Ladder(r', !isSell)) ==
                 AbsSide(r.on, r.ln, r.queues, Ladder(r, !isSell))
  {
    hide Linked, QueueAt, UnlinkLevels, Queues, Homes, Prices, NoDup;
    var a, b := Ladder(r, isSell), Ladder(r, !isSell);
    LaddersClose(r.ln, a, b, k, freeHead);
    var r' := CloseRep(r, isSell, k, freeHead);
    assert forall l :: l != a[k] ==> AbsLevel(r'.on, r'.ln, r'.queues, l) == AbsLevel(r.on, r.ln, r.queues, l);
    assert forall j :: 0 <= j < |a| - 1 ==>
           Without(a, k)[j] == a[if j < k then j else j + 1] && Without(a, k)[j] in Without(a, k);
    assert a[k] in a && a[k] !in b && a[k] !in Without(a, k);
  }

  function OpenRep(r: Rep, isSell: bool, k: nat, l: nat, price: nat): Rep
    requires k <= |Ladder(r, isSell)| && l < |r.ln|
  {
    var a := Ladder(r, isSell);
    WithLadder(r, isSell, Insert(a, k, l))
      .(ln := LinkLevels(r.ln[l := OpenLevel(price)], Before(a, k), l, if k < |a| then a[k] else NULL_IDX),
        prices := r.prices[price := l])
  }

  lemma LaddersOpen(ln: seq<PriceLevelNode>, a: seq<nat>, b: seq<nat>, k: nat, l: nat, price: nat)
    requires Linked(LevelPrev(ln), LevelNext(ln), a) && Linked(LevelPrev(ln), LevelNext(ln), b)
    requires k <= |a| && l < |ln| && l !in a && l !in b && forall m :: m in a ==> m !in b
    ensures var mid := ln[l := OpenLevel(price)];
            var ln' := LinkLevels(mid, Before(a, k), l, if k < |a| then a[k] else NULL_IDX);
            && SameLevels(mid, ln')
            && Linked(LevelPrev(ln'), LevelNext(ln'), Insert(a, k, l)) && Linked(LevelPrev(ln'), LevelNext(ln'), b)
            && (forall m :: m in Insert(a, k, l) <==> m in a || m == l)
  {
    hide Linked, NoDup, LinkLevels;
    var mid := ln[l := OpenLevel(price)];
    LadderFrame(ln, mid, a);
    LadderFrame(ln, mid, b);
    LadderLink(mid, a, k, l);
    var ln' := LinkLevels(mid, Before(a, k), l, if k < |a| then a[k] else NULL_IDX);
    forall m {:trigger b[m]} | 0 <= m < |b| && b[m] < |ln| ensures ln'[b[m]] == mid[b[m]] {
      assert b[m] in b;
    }
    LadderFrame(mid, ln', b);
    InsertMembers(a, k, l);
  }

  lemma InsertMembers(a: seq<nat>, k: nat, l: nat)
    requires k <= |a|
    ensures forall m :: m in Insert(a, k, l) <==> m in a || m == l
  {
    assert a == a[..k] + a[k..];
  }

  // A ladder whose nodes keep their contents stays linked.
  lemma LadderFrame(ln: seq<PriceLevelNode>, ln': seq<PriceLevelNode>, a: seq<nat>)
    requires Linked(LevelPrev(ln), LevelNext(ln), a) && |ln'| == |ln|
    requires forall m {:trigger a[m]} :: 0 <= m < |a| && a[m] < |ln| ==> ln'[a[m]] == ln[a[m]]
    ensures Linked(LevelPrev(ln'), LevelNext(ln'), a)
  {
    LinkedSize(LevelPrev(ln), LevelNext(ln), a);
    hide Linked;
    LinkedFrame(LevelPrev(ln), LevelNext(ln), LevelPrev(ln'), LevelNext(ln'), a);
  }

  lemma EmptyQueue(on: seq<OrderNode>, lv: PriceLevelNode)
    requires |on| < NULL_IDX
    requires lv.headOrder == NULL_IDX && lv.tailOrder == NULL_IDX && lv.totalQty == 0 && lv.orderCount == 0
    ensures QueueAt(on, [], lv)
  {
  }

  lemma {:induction false} OpenKeeps(r: Rep, isSell: bool, k: nat, l: nat, price: nat)
    requires Structure(r) && k <= |Ladder(r, isSell)| && |r.on| < NULL_IDX
    requires l < |r.ln| && !r.ln[l].active && price !in r.prices
    ensures Structure(OpenRep(r, isSell, k, l, price))
  {
    hide Linked, QueueAt, NoDup, LinkLevels;
    var a := Ladder(r, isSell);
    var mid := r.ln[l := OpenLevel(price)];
    LaddersOpen(r.ln, a, Ladder(r, !isSell), k, l, price);
    var r' := OpenRep(r, isSell, k, l, price);
    assert Ladders(r'.ln, r'.bids, r'.asks) by { hide Prices, Queues, Homes; }
    hide Ladders;
    assert Prices(r'.ln, r'.prices) by { hide Queues, Homes; }
    HomesBound(r);
    hide Prices;
    assert Queues(r'.on, r'.ln, r'.queues) by {
      hide Homes;
      EmptyQueue(r.on, OpenLevel(price));
      QueuesFrame(r.on, mid, r'.ln, r.queues, l);
    }
    assert Homes(r'.on, r'.ln, r'.queues) by { hide Ladders, Prices; }
  }

  lemma OpenAbs(r: Rep, isSell: bool, k: nat, l: nat, price: nat)
    requires Structure(r) && k <= |Ladder(r, isSell)|
    requires l < |r.ln| && !r.ln[l].active
    ensures var r' := OpenRep(r, isSell, k, l, price);
            var s := AbsSide(r.on, r.ln, r.queues, Ladder(r, isSell));
            && AbsSide(r'.on, r'.ln, r'.queues, Ladder(r', isSell)) == s[..k] + [Level(price, [])] + s[k..]
            && AbsSide(r'.on, r'.ln, r'.queues, Ladder(r', !isSell)) ==
                 AbsSide(r.on, r.ln, r.queues, Ladder(r, !isSell))
  {
    hide Linked, QueueAt, LinkLevels, Homes, Prices;
    var a, b := Ladder(r, isSell), Ladder(r, !isSell);
    LaddersOpen(r.ln, a, b, k, l, price);
    var r' := OpenRep(r, isSell, k, l, price);
    assert r.queues[l] == [] && AbsQueue(r.on, []) == [];
    assert forall m :: m != l ==> AbsLevel(r'.on, r'.ln, r'.queues, m) == AbsLevel(r.on, r.ln, r.queues, m);
    assert AbsLevel(r'.on, r'.ln, r'.queues, l) == Level(price, []);
    assert forall j :: 0 <= j < |b| ==> b[j] in b && b[j] != l;
    assert forall j :: 0 <= j < |a| ==> a[j] in a && a[j] != l;
    assert AbsSide(r'.on, r'.ln, r'.queues, a) == AbsSide(r.on, r.ln, r.queues, a);
    AbsSideInsert(r'.on, r'.ln, r'.queues, a, k, l);
  }

  lemma AbsSideInsert(on: seq<OrderNode>, ln: seq<PriceLevelNode>, queues: seq<seq<nat>>, a: seq<nat>, k: nat, l: nat)
    requires k <= |a|
    ensures var s := AbsSide(on, ln, queues, a);
            AbsSide(on, ln, queues, Insert(a, k, l)) == s[..k] + [AbsLevel(on, ln, queues, l)] + s[k..]
  {
    hide AbsLevel;
  }

  // ----- The order index --------------------------------------------------------------------------

  // Orders keep everything but their quantity.
  ghost predicate SameOrders(on: seq<OrderNode>, on': seq<OrderNode>) {
    |on'| == |on| && forall i {:trigger on'[i]} {:trigger on[i]} :: 0 <= i < |on| ==>
      on'[i].order == on[i].order.(qty := on'[i].order.qty)
  }

  lemma IndexedSame(on: seq<OrderNode>, on': seq<OrderNode>, queues: seq<seq<nat>>, prices: map<nat, nat>,
                    ids: map<nat, IndexEntry>)
    requires Indexed(on, queues, prices, ids) && SameOrders(on, on')
    ensures Indexed(on', queues, prices, ids)
  {
    forall l, k | 0 <= l < |queues| && 0 <= k < |queues[l]| ensures Registered(on', queues[l][k], ids) {
      assert Registered(on, queues[l][k], ids);
    }
    forall id | id in ids ensures Stored(on', queues, prices, ids[id], id) {
      assert Stored(on, queues, prices, ids[id], id);
    }
  }

  // Taking the order at position k of level l out of its queue and out of the index. The price of the
  // level may go too, once its queue is empty.
  lemma IndexedRemove(on: seq<OrderNode>, on': seq<OrderNode>, queues: seq<seq<nat>>, prices: map<nat, nat>,
                      prices': map<nat, nat>, ids: map<nat, IndexEntry>, l: nat, k: nat)
    requires Indexed(on, queues, prices, ids) && SameOrders(on, on')
    requires l < |queues| && k < |queues[l]| && NoDup(queues[l])
    requires forall m, j {:trigger queues[m][j]} :: 0 <= m < |queues| && m != l && 0 <= j < |queues[m]| ==>
             queues[m][j] != queues[l][k]
    requires forall p {:trigger p in prices} {:trigger p in prices'} ::
             p in prices && (prices[p] == l ==> |queues[l]| > 1) ==>
               p in prices' && prices'[p] == prices[p]
    ensures queues[l][k] < |on|
    ensures Indexed(on', queues[l := Without(queues[l], k)], prices', ids - {on[queues[l][k]].order.id})
  {
    var i := queues[l][k];
    assert Registered(on, i, ids);
    var id := on[i].order.id;
    var queues' := queues[l := Without(queues[l], k)];
    RemoveNoDup(queues[l], k);
    forall m, j | 0 <= m < |queues'| && 0 <= j < |queues'[m]|
      ensures Registered(on', queues'[m][j], ids - {id})
    {
      var j0 := if m == l && j >= k then j + 1 else j;
      var i' := queues[m][j0];
      assert queues'[m][j] == i' && Registered(on, i', ids);
      assert m == l ==> i' != i by { if m == l { NoDupAt(queues[l], j0, k); } }
      assert on[i'].order.id != id;
    }
    forall id' | id' in ids && id' != id
      ensures Stored(on', queues', prices', ids[id'], id')
    {
      assert Stored(on, queues, prices, ids[id'], id');
      assert ids[id'].nodeIdx != i;
    }
  }

  lemma ElsewhereNot(r: Rep, l: nat, k: nat)
    requires Structure(r) && l < |r.queues| && k < |r.queues[l]|
    ensures l < |r.ln| && r.ln[l].active && NoDup(r.queues[l])
    ensures forall m, j {:trigger r.queues[m][j]} :: 0 <= m < |r.queues| && m != l && 0 <= j < |r.queues[m]| ==>
              r.queues[m][j] != r.queues[l][k]
  {
    hide Ladders, Linked;
    assert r.ln[l].active by { assert r.queues[l] != []; }
    assert NoDup(r.queues[l]) by { LinkedNoDup(OrderPrev(r.on), OrderNext(r.on), r.queues[l]); }
    forall m, j | 0 <= m < |r.queues| && m != l && 0 <= j < |r.queues[m]| ensures r.queues[m][j] != r.queues[l][k] {
      assert r.ln[m].active by { assert r.queues[m] != []; }
      QueuesDisjoint(r, l, m, j);
    }
  }

  // Queueing node i, whose id is new, on level l and entering it in the index.
  lemma IndexedInsert(on: seq<OrderNode>, on': seq<OrderNode>, queues: seq<seq<nat>>, prices: map<nat, nat>,
                      prices': map<nat, nat>, ids: map<nat, IndexEntry>, l: nat, i: nat)
    requires Indexed(on, queues, prices, ids)
    requires |on'| == |on| && i < |on| && l < |queues|
    requires forall j {:trigger on'[j]} {:trigger on[j]} :: 0 <= j < |on| && j != i ==> on'[j].order == on[j].order
    requires forall m, j {:trigger queues[m][j]} :: 0 <= m < |queues| && 0 <= j < |queues[m]| ==> queues[m][j] != i
    requires on'[i].order.id !in ids
    requires forall p {:trigger p in prices} {:trigger p in prices'} ::
               p in prices ==> p in prices' && prices'[p] == prices[p]
    requires on'[i].order.price in prices' && prices'[on'[i].order.price] == l
    ensures Indexed(on', queues[l := queues[l] + [i]], prices', ids[on'[i].order.id := EntryOf(on'[i].order, i)])
  {
    var id := on'[i].order.id;
    var queues' := queues[l := queues[l] + [i]];
    var ids' := ids[id := EntryOf(on'[i].order, i)];
    forall m, j | 0 <= m < |queues'| && 0 <= j < |queues'[m]| ensures Registered(on', queues'[m][j], ids') {
      if m != l || j < |queues[l]| {
        assert queues'[m][j] == queues[m][j] && Registered(on, queues[m][j], ids);
      }
    }
    forall id' | id' in ids' ensures Stored(on', queues', prices', ids'[id'], id') {
      if id' != id {
        assert Stored(on, queues, prices, ids[id'], id');
        var q := queues[prices[on[ids[id'].nodeIdx].order.price]];
        assert exists j :: 0 <= j < |q| && q[j] == ids[id'].nodeIdx;
      } else {
        assert queues'[l][|queues[l]|] == i;
      }
    }
  }
}
