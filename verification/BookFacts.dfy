/** What the order book's methods rely on, about snapshots and represented books: the ladders, the turns
    of the matching loops, resting, and cancelling. */
module BookFacts {
  import opened Types
  import opened Arena
  import opened Links
  import opened LevelStore
  import opened Matcher
  import opened PriceTime
  import opened BookLaws
  import opened BookRep
  import opened BookSteps
  import opened BookSafety
  import opened BookEffects
  import opened BookSizes
  import opened BookLookup

  // ----- Sides and snapshots --------------------------------------------------------------------

  lemma SideIs(r: Rep, isSell: bool)
    ensures Side(r, isSell) == AbsSide(r.on, r.ln, r.queues, Ladder(r, isSell))
  {
  }

  lemma Counted(b: Book)
    ensures OrderCount(b) == |Flat(b.bids)| + |Flat(b.asks)| && LevelCount(b) == |b.bids| + |b.asks|
  {
  }

  lemma InvStructure(r: Rep)
    requires Inv(r)
    ensures Structure(r)
  {
  }

  lemma SideSize(r: Rep, isSell: bool)
    ensures |Side(r, isSell)| == |Ladder(r, isSell)|
  {
  }

  lemma QueuesSize(r: Rep)
    requires Structure(r)
    ensures |r.queues| == |r.ln|
  {
  }

  lemma EmptyLinked(prev: seq<nat>, next: seq<nat>)
    requires |prev| == |next| < NULL_IDX
    ensures Linked(prev, next, [])
  {
  }

  // Two arenas of free nodes and empty indices represent the empty book.
  lemma EmptyInv(r: Rep)
    requires |r.on| < NULL_IDX && |r.ln| == |r.queues| < NULL_IDX
    requires r.bids == [] && r.asks == [] && r.bestBid == NULL_IDX && r.bestAsk == NULL_IDX
    requires r.prices == map[] && r.ids == map[]
    requires forall l :: 0 <= l < |r.ln| ==> !r.ln[l].active && r.queues[l] == []
    ensures Inv(r) && Bids(r) == [] && Asks(r) == []
  {
    EmptyLinked(LevelPrev(r.ln), LevelNext(r.ln));
    hide Linked, QueueAt;
  }

  lemma EmptyWf()
    ensures Wf(EMPTY) && OrderCount(EMPTY) == 0 && LevelCount(EMPTY) == 0
  {
  }

  // ----- Ladders --------------------------------------------------------------------------------

  lemma EmptyLevel(r: Rep, isSell: bool, k: nat)
    requires Structure(r) && k < |Ladder(r, isSell)|
    ensures var l := Ladder(r, isSell)[k];
            && l < |r.queues| == |r.ln| && k < |Side(r, isSell)|
            && (Side(r, isSell)[k].orders == [] ==> r.queues[l] == [])
            && Side(r, isSell)[k].price == r.ln[l].price
  {
    LadderLevel(r, isSell, k);
  }

  // A price whose level has no orders can leave the price index.
  lemma IndexedWithout(on: seq<OrderNode>, queues: seq<seq<nat>>, prices: map<nat, nat>, price: nat,
                       ids: map<nat, IndexEntry>)
    requires Indexed(on, queues, prices, ids) && price in prices && prices[price] < |queues|
    requires queues[prices[price]] == []
    ensures Indexed(on, queues, prices - {price}, ids)
  {
    forall id | id in ids ensures Stored(on, queues, prices - {price}, ids[id], id) {
      assert Stored(on, queues, prices, ids[id], id);
    }
  }

  lemma {:induction false} CloseInv(r: Rep, isSell: bool, k: nat, freeHead: nat)
    requires Inv(r) && k < |Ladder(r, isSell)|
    requires Ladder(r, isSell)[k] < |r.queues| && r.queues[Ladder(r, isSell)[k]] == []
    ensures Ladder(r, isSell)[k] < |r.ln|
    ensures var r' := CloseRep(r, isSell, k, freeHead);
            && Inv(r')
            && |Side(r, isSell)| == |Ladder(r, isSell)|
            && Side(r', isSell) == Side(r, isSell)[..k] + Side(r, isSell)[k + 1..]
            && Side(r', !isSell) == Side(r, !isSell)
  {
    CloseKeeps(r, isSell, k, freeHead);
    CloseAbs(r, isSell, k, freeHead);
    LadderLevel(r, isSell, k);
    hide Structure, UnlinkLevels, AbsSide, QueueAt, NoDup, Indexed;
    var l := Ladder(r, isSell)[k];
    IndexedWithout(r.on, r.queues, r.prices, r.ln[l].price, r.ids);
    SideSize(r, isSell);
  }

  lemma LinkKeepsFree(ln: seq<PriceLevelNode>, prev: nat, l: nat, next: nat)
    ensures var ln' := LinkLevels(ln, prev, l, next);
            LevelNextFree(ln') == LevelNextFree(ln) && LevelActive(ln') == LevelActive(ln)
  {
  }

  function PriceOf(ln: seq<PriceLevelNode>, l: nat): nat { if l < |ln| then ln[l].price else 0 }

  // A linked, strictly sorted ladder without the price.
  ghost predicate LadderOk(ln: seq<PriceLevelNode>, a: seq<nat>, price: nat, isSell: bool) {
    && Linked(LevelPrev(ln), LevelNext(ln), a)
    && (forall j {:trigger a[j]} :: 0 <= j < |a| ==> a[j] < |ln| && ln[a[j]].price != price)
    && (forall i, j {:trigger a[i], a[j]} :: 0 <= i < j < |a| ==> Better(isSell, PriceOf(ln, a[i]), PriceOf(ln, a[j])))
  }

  // The ladder of a sorted side that lacks the price.
  lemma {:induction false} LadderIsOk(r: Rep, isSell: bool, price: nat)
    requires Structure(r) && Sorted(Side(r, isSell), isSell) && !HasPrice(Side(r, isSell), price)
    ensures LadderOk(r.ln, Ladder(r, isSell), price, isSell)
    ensures r.bestBid == First(r.bids) && r.bestAsk == First(r.asks) && |r.ln| < NULL_IDX
    ensures forall j :: j in Ladder(r, isSell) ==> j < |r.ln| && r.ln[j].active
  {
    hide Prices, Queues, Homes;
    var a := Ladder(r, isSell);
    LinkedSize(LevelPrev(r.ln), LevelNext(r.ln), a);
    assert |r.queues| == |r.ln| by { QueuesSize(r); }
    hide Linked;
    forall j | 0 <= j < |a| ensures a[j] < |r.ln| && r.ln[a[j]].price == Side(r, isSell)[j].price {
    }
  }

  lemma TailLinkable(r: Rep, isSell: bool, k: nat)
    requires Inv(r) && k < |Ladder(r, isSell)|
    ensures var l := Ladder(r, isSell)[k];
            l < |r.ln| == |r.queues| && |r.on| < NULL_IDX && Linkable(r.on, r.ln[l].tailOrder)
  {
    LadderLevel(r, isSell, k);
    var l := Ladder(r, isSell)[k];
    var q := r.queues[l];
    LinkedSize(OrderPrev(r.on), OrderNext(r.on), q);
    hide Structure, Indexed, Linked, NoDup;
    assert q != [] ==> r.on[q[|q| - 1]].active;
  }

  // Level l is free, and position k is where a level with this price belongs.
  ghost predicate Opens(s: Rep, isSell: bool, k: nat, l: nat, price: nat) {
    && l < |s.ln| && !s.ln[l].active
    && k <= |Side(s, isSell)| == |Ladder(s, isSell)|
    && (forall j :: 0 <= j < k ==> Better(isSell, Side(s, isSell)[j].price, price))
    && (k < |Side(s, isSell)| ==> Better(isSell, price, Side(s, isSell)[k].price))
  }

  lemma LadderStays(ln: seq<PriceLevelNode>, a: seq<nat>, l: nat, price: nat, isSell: bool)
    requires LadderOk(ln, a, price, isSell) && l < |ln| && !ln[l].active
    requires forall j :: j in a ==> j < |ln| && ln[j].active
    ensures l !in a && LadderOk(ln[l := OpenLevel(price)], a, price, isSell)
  {
    var mid := ln[l := OpenLevel(price)];
    assert forall j :: 0 <= j < |a| ==> a[j] in a && mid[a[j]] == ln[a[j]];
    LinkedFrame(LevelPrev(ln), LevelNext(ln), LevelPrev(mid), LevelNext(mid), a);
  }

  // Position k separates the better prices from the worse ones.
  ghost predicate LinksAt(ln: seq<PriceLevelNode>, a: seq<nat>, k: nat, price: nat, isSell: bool) {
    && (forall j {:trigger a[j]} :: 0 <= j < k && j < |a| ==> Better(isSell, PriceOf(ln, a[j]), price))
    && (k < |a| ==> Better(isSell, price, PriceOf(ln, a[k])))
  }

  lemma LinksToSide(r: Rep, isSell: bool, k: nat, l: nat, price: nat)
    requires Structure(r) && l < |r.ln| && !r.ln[l].active && l !in Ladder(r, isSell) && k <= |Ladder(r, isSell)|
    requires forall j :: j in Ladder(r, isSell) ==> j < |r.ln| && r.ln[j].active
    requires LinksAt(r.ln[l := OpenLevel(price)], Ladder(r, isSell), k, price, isSell)
    ensures Opens(r, isSell, k, l, price)
  {
    QueuesSize(r);
    hide Structure;
    var a := Ladder(r, isSell);
    var mid := r.ln[l := OpenLevel(price)];
    forall j | 0 <= j < |a| ensures Side(r, isSell)[j].price == PriceOf(mid, a[j]) {
      assert a[j] in a;
    }
  }

  lemma LadderStart(ln: seq<PriceLevelNode>, a: seq<nat>, price: nat, isSell: bool)
    requires LadderOk(ln, a, price, isSell)
    ensures |ln| < NULL_IDX && (a != [] ==> a[0] < |ln| && ln[a[0]].price != price)
    ensures a == [] || Better(isSell, price, PriceOf(ln, a[0])) ==> LinksAt(ln, a, 0, price, isSell)
  {
  }

  lemma LadderWalk(ln: seq<PriceLevelNode>, a: seq<nat>, price: nat, isSell: bool, m: nat)
    requires LadderOk(ln, a, price, isSell) && m < |a| && Better(isSell, PriceOf(ln, a[m]), price)
    ensures a[m] < |ln| && ln[a[m]].nextLevel == After(a, m)
    ensures m + 1 < |a| ==> a[m + 1] < |ln| && ln[a[m + 1]].price != price
    ensures m + 1 == |a| || !Better(isSell, PriceOf(ln, a[m + 1]), price) ==> LinksAt(ln, a, m + 1, price, isSell)
  {
    assert a[m] < |ln|;
    assert LevelNext(ln)[a[m]] == After(a, m);
    hide Linked;
    assert forall j :: 0 <= j < m ==> Better(isSell, PriceOf(ln, a[j]), PriceOf(ln, a[m]));
  }

  // The ladder links of the level at position k.
  lemma LadderNode(r: Rep, isSell: bool, k: nat)
    requires Structure(r) && k < |Ladder(r, isSell)|
    ensures var l := Ladder(r, isSell)[k];
            && l < |r.ln| < NULL_IDX && r.ln[l].active
            && r.ln[l].prevLevel == Before(Ladder(r, isSell), k) && r.ln[l].nextLevel == After(Ladder(r, isSell), k)
            && (r.ln[l].prevLevel == NULL_IDX || r.ln[l].prevLevel < |r.ln|)
            && (r.ln[l].nextLevel == NULL_IDX || r.ln[l].nextLevel < |r.ln|)
            && UnlinkLevels(r.ln, l)[l].active && UnlinkLevels(r.ln, l)[l].price == r.ln[l].price
    ensures First(Without(Ladder(r, isSell), k)) ==
            if k == 0 then r.ln[Ladder(r, isSell)[0]].nextLevel else First(Ladder(r, isSell))
    ensures k == 0 <==> r.ln[Ladder(r, isSell)[k]].prevLevel == NULL_IDX
    ensures r.bestBid == First(r.bids) && r.bestAsk == First(r.asks)
  {
    hide Queues, Homes, Prices;
    var a := Ladder(r, isSell);
    LadderUnlink(r.ln, a, k);
    LinkedSize(LevelPrev(r.ln), LevelNext(r.ln), a);
    assert a[k] in a;
    hide Linked, NoDup;
    assert a[0] < |r.ln|;
  }

  // ----- Depth and best prices ------------------------------------------------------------------

  function DepthLevel(l: Level): MarketDepthLevel {
    MarketDepthLevel(l.price, Volume(l.orders), |l.orders|)
  }

  function Depth(levels: seq<Level>, n: nat): seq<MarketDepthLevel> {
    seq(Min(n, |levels|), i requires 0 <= i < Min(n, |levels|) => DepthLevel(levels[i]))
  }

  lemma DepthNone(levels: seq<Level>)
    ensures Depth(levels, 0) == []
  {
  }

  lemma DepthMore(levels: seq<Level>, n: nat)
    ensures n < |levels| ==> Depth(levels, n + 1) == Depth(levels, n) + [DepthLevel(levels[n])]
  {
  }

  lemma DepthEnds(levels: seq<Level>, m: nat, n: nat)
    requires |levels| <= m <= n
    ensures Depth(levels, m) == Depth(levels, n)
  {
  }

  function Best(levels: seq<Level>): Option<(nat, nat)> {
    if levels == [] then None else Some((levels[0].price, Volume(levels[0].orders)))
  }

  lemma {:induction false} SumIsVolume(on: seq<OrderNode>, q: seq<nat>)
    requires forall k :: 0 <= k < |q| ==> q[k] < |on|
    ensures Volume(AbsQueue(on, q)) == SumQty(on, q)
  {
    if q != [] {
      SumIsVolume(on, q[1..]);
      assert AbsQueue(on, q)[1..] == AbsQueue(on, q[1..]);
    }
  }

  // The stored totals of a level are those of its queue.
  lemma DepthNode(r: Rep, isSell: bool, k: nat)
    requires Inv(r) && k < |Ladder(r, isSell)|
    ensures var l := Ladder(r, isSell)[k];
            && l < |r.ln| && k < |Side(r, isSell)| == |Ladder(r, isSell)|
            && DepthLevel(Side(r, isSell)[k]) == MarketDepthLevel(r.ln[l].price, r.ln[l].totalQty, r.ln[l].orderCount)
            && r.ln[l].price == Side(r, isSell)[k].price && r.ln[l].totalQty == Volume(Side(r, isSell)[k].orders)
            && r.ln[l].nextLevel == (if k + 1 < |Ladder(r, isSell)| then Ladder(r, isSell)[k + 1] else NULL_IDX)
  {
    LadderLevel(r, isSell, k);
    LadderNode(r, isSell, k);
    SideSize(r, isSell);
    var l := Ladder(r, isSell)[k];
    LinkedSize(OrderPrev(r.on), OrderNext(r.on), r.queues[l]);
    hide Structure, Indexed, Linked;
    SumIsVolume(r.on, r.queues[l]);
  }

  // ----- Filling and sweeping -------------------------------------------------------------------

  function PrefixedSweep(ts: seq<Trade>, s: Sweep): Sweep {
    s.(trades := ts + s.trades)
  }

  // The side after its best level is left with the queue q.
  function NextLevels(lv: seq<Level>, q: seq<Resting>): seq<Level>
    requires lv != []
  {
    if q == [] then lv[1..] else [lv[0].(orders := q)] + lv[1..]
  }

  // One turn of the sweeping loop.
  lemma SweepStep(o: Order, left: nat, clientId: nat, lv: seq<Level>, clients: map<ClientKey, nat>, tid: nat,
                  made: seq<Trade>)
    requires left > 0 && lv != [] && Crosses(o, lv[0].price)
    ensures var f := MatchQueue(o, left, clientId, lv[0].orders, clients, tid);
            PrefixedSweep(made, MatchSide(o, left, clientId, lv, clients, tid))
            == if f.stp then Sweep(f.left, NextLevels(lv, f.queue), f.clients, made + f.trades, true)
               else PrefixedSweep(made + f.trades,
                   MatchSide(o, f.left, clientId, NextLevels(lv, f.queue), f.clients, tid + |f.trades|))
    ensures var f := MatchQueue(o, left, clientId, lv[0].orders, clients, tid);
            !f.stp ==> |NextLevels(lv, f.queue)| + f.left < |lv| + left
    ensures var f := MatchQueue(o, left, clientId, lv[0].orders, clients, tid);
            |NextLevels(lv, f.queue)| + f.left <= |lv| + left
  {
    hide Crosses, MatchQueue;
    var f := MatchQueue(o, left, clientId, lv[0].orders, clients, tid);
    if f.queue == [] {
      var t := MatchSide(o, f.left, clientId, lv[1..], f.clients, tid + |f.trades|);
      assert made + (f.trades + t.trades) == made + f.trades + t.trades;
    } else if !f.stp {
      assert made + f.trades + [] == made + f.trades;
    }
  }

  lemma SweepStops(o: Order, left: nat, clientId: nat, lv: seq<Level>, clients: map<ClientKey, nat>, tid: nat,
                   made: seq<Trade>)
    requires left == 0 || lv == [] || !Crosses(o, lv[0].price)
    ensures PrefixedSweep(made, MatchSide(o, left, clientId, lv, clients, tid)) == Sweep(left, lv, clients, made, false)
  {
    assert made + [] == made;
  }

  lemma FlatNext(lv: seq<Level>, q: seq<Resting>)
    requires lv != []
    ensures |Flat(NextLevels(lv, q))| == |Flat(lv)| - |lv[0].orders| + |q|
  {
    assert ([lv[0].(orders := q)] + lv[1..])[1..] == lv[1..];
  }

  lemma CountsOf(b: Book, c: Book, opp: bool)
    requires if opp then c.bids == b.bids else c.asks == b.asks
    ensures OrderCount(c) - OrderCount(b) ==
            (if opp then |Flat(c.asks)| - |Flat(b.asks)| else |Flat(c.bids)| - |Flat(b.bids)|)
    ensures LevelCount(c) - LevelCount(b) == (if opp then |c.asks| - |b.asks| else |c.bids| - |b.bids|)
  {
  }

  lemma ChangedFirst(r: Rep, r': Rep, isSell: bool, q: seq<Resting>)
    requires Changed(r, r', isSell, 0, q)
    ensures Ladder(r', isSell) == Ladder(r, isSell) && Side(r, isSell) != []
    ensures Side(r', isSell) == [Side(r, isSell)[0].(orders := q)] + Side(r, isSell)[1..]
    ensures Side(r', !isSell) == Side(r, !isSell)
    ensures |Side(r', isSell)| == |Ladder(r', isSell)| > 0
  {
  }

  function Prefixed(ts: seq<Trade>, f: Fill): Fill {
    f.(trades := ts + f.trades)
  }

  lemma PrefixedTwice(ts: seq<Trade>, t: Trade, f: Fill)
    ensures Prefixed(ts, Prefixed([t], f)) == Prefixed(ts + [t], f)
  {
    assert ts + ([t] + f.trades) == ts + [t] + f.trades;
  }

  function FillOf(left: nat, q: seq<Resting>): nat
    requires q != []
  {
    Min(left, q[0].order.qty)
  }

  // The queue and the client index after `left` meets the oldest order of q.
  function AfterFill(left: nat, q: seq<Resting>): seq<Resting>
    requires q != []
  {
    if q[0].order.qty <= left then q[1..] else [Reduced(q[0], left)] + q[1..]
  }

  function ClientsAfterFill(left: nat, q: seq<Resting>, clients: map<ClientKey, nat>): map<ClientKey, nat>
    requires q != []
  {
    if q[0].order.qty <= left then clients - {KeyOf(q[0])} else clients
  }

  // One turn of the matching loop, and where it stops.
  lemma FillStep(o: Order, left: nat, clientId: nat, q: seq<Resting>, clients: map<ClientKey, nat>, tid: nat)
    ensures left == 0 || q == [] ==> MatchQueue(o, left, clientId, q, clients, tid) == Fill(left, q, clients, [], false)
    ensures left > 0 && q != [] && q[0].order.userId == o.userId ==>
              MatchQueue(o, left, clientId, q, clients, tid) == Fill(left, q, clients, [], true)
    ensures left > 0 && q != [] && q[0].order.userId != o.userId ==>
              MatchQueue(o, left, clientId, q, clients, tid)
              == Prefixed([MakeTrade(o, clientId, q[0], FillOf(left, q), tid)],
                          MatchQueue(o, left - FillOf(left, q), clientId, AfterFill(left, q),
                              ClientsAfterFill(left, q, clients), tid + 1))
  {
    hide MakeTrade;
  }

  lemma AfterFillSmaller(left: nat, q: seq<Resting>)
    requires q != [] && left > 0
    ensures |AfterFill(left, q)| + (left - FillOf(left, q)) < |q| + left
  {
  }

  lemma ChangedRefl(r: Rep, isSell: bool, k: nat)
    requires k < |Ladder(r, isSell)|
    ensures k < |Side(r, isSell)| && Changed(r, r, isSell, k, Side(r, isSell)[k].orders)
  {
  }

  lemma ChangedLevel(r: Rep, r': Rep, isSell: bool, k: nat, q: seq<Resting>)
    requires Changed(r, r', isSell, k, q)
    ensures k < |Ladder(r', isSell)| && Ladder(r', isSell) == Ladder(r, isSell)
    ensures k < |Side(r', isSell)| && Side(r', isSell)[k].orders == q
  {
  }

  lemma QueueHead(on: seq<OrderNode>, q: seq<nat>, lv: PriceLevelNode)
    requires QueueAt(on, q, lv)
    ensures lv.headOrder == First(q)
    ensures q != [] && q[0] < |on| ==> on[q[0]].order.qty <= lv.totalQty
  {
    hide Linked;
  }

  lemma UnlinkActive(on: seq<OrderNode>, i: nat)
    requires i < |on|
    ensures |UnlinkNodes(on, i)| == |on| && UnlinkNodes(on, i)[i].active == on[i].active
    ensures UnlinkNodes(on, i)[i].order == on[i].order
  {
  }

  // ----- Resting --------------------------------------------------------------------------------

  // The level of a price is on this side.
  ghost predicate OnOwnSide(r: Rep, isSell: bool, price: nat) {
    exists k :: 0 <= k < |Ladder(r, isSell)| && price in r.prices && Ladder(r, isSell)[k] == r.prices[price]
  }

  // In s' the level l at position k awaits the order r.
  ghost predicate Ready(s: Rep, s': Rep, isSell: bool, k: nat, l: nat, r: Resting) {
    && s'.on == s.on && s'.queues == s.queues && s'.ids == s.ids
    && k < |Ladder(s', isSell)| && Ladder(s', isSell)[k] == l && l < |s'.ln| && s'.ln[l].price == r.order.price
    && k < |Side(s', isSell)|
    && Side(s', isSell)[k := Side(s', isSell)[k].(orders := Side(s', isSell)[k].orders + [r])] ==
         Place(Side(s, isSell), r, isSell)
    && Side(s', !isSell) == Side(s, !isSell)
  }

  lemma ReadyToJoin(s: Rep, isSell: bool, price: nat, r: Resting) returns (k: nat)
    requires Inv(s) && price in s.prices && OnOwnSide(s, isSell, price) && r.order.price == price
    requires Sorted(Side(s, isSell), isSell)
    ensures Ready(s, s, isSell, k, s.prices[price], r) && HasPrice(Side(s, isSell), price)
  {
    hide Sorted, Place, HasPrice, Queues, Homes, Ladders, Indexed;
    k :| 0 <= k < |Ladder(s, isSell)| && Ladder(s, isSell)[k] == s.prices[price];
    LadderLevel(s, isSell, k);
    SideSize(s, isSell);
    PlaceAt(Side(s, isSell), k, r, isSell);
  }

  lemma OpenedLadder(s: Rep, isSell: bool, k: nat, l: nat, price: nat)
    requires k <= |Ladder(s, isSell)| && l < |s.ln|
    ensures var s' := OpenRep(s, isSell, k, l, price);
            && s'.on == s.on && s'.queues == s.queues && s'.ids == s.ids && |s'.ln| == |s.ln|
            && k < |Ladder(s', isSell)| && Ladder(s', isSell)[k] == l
            && s'.ln == LinkLevels(s.ln[l := OpenLevel(price)], Before(Ladder(s, isSell), k), l,
                                   if k < |Ladder(s, isSell)| then Ladder(s, isSell)[k] else NULL_IDX)
  {
  }

  // A new level that gets its first order.
  lemma FilledLevel(x: seq<Level>, k: nat, r: Resting)
    requires k <= |x|
    ensures var y := x[..k] + [Level(r.order.price, [])] + x[k..];
            && |y| == |x| + 1
            && y[k := y[k].(orders := y[k].orders + [r])] == x[..k] + [Level(r.order.price, [r])] + x[k..]
  {
    assert [] + [r] == [r];
  }

  lemma OpenedLevel(ln: seq<PriceLevelNode>, l: nat, price: nat, prev: nat, next: nat)
    requires l < |ln|
    ensures LinkLevels(ln[l := OpenLevel(price)], prev, l, next)[l].price == price
  {
  }

  lemma {:induction false} ReadyAfterOpen(s: Rep, isSell: bool, k: nat, l: nat, r: Resting)
    requires Inv(s) && Opens(s, isSell, k, l, r.order.price) && |s.on| < NULL_IDX && r.order.price !in s.prices
    ensures k <= |Ladder(s, isSell)| && l < |s.ln|
    ensures var s' := OpenRep(s, isSell, k, l, r.order.price);
            && Inv(s') && Ready(s, s', isSell, k, l, r)
            && |Side(s', isSell)| == |Side(s, isSell)| + 1
  {
    hide Inv, Place, LinkLevels, Ladder, AbsSide;
    OpenIndexed(s, isSell, k, l, r.order.price);
    assert Structure(s) by { InvStructure(s); }
    hide Structure;
    OpenAbs(s, isSell, k, l, r.order.price);
    hide Side;
    PlaceNew(Side(s, isSell), k, r, isSell);
    OpenedLevel(s.ln, l, r.order.price, Before(Ladder(s, isSell), k),
                if k < |Ladder(s, isSell)| then Ladder(s, isSell)[k] else NULL_IDX);
    OpenedLadder(s, isSell, k, l, r.order.price);
    hide OpenRep;
    FilledLevel(Side(s, isSell), k, r);
    SideIs(s, isSell);
    SideIs(OpenRep(s, isSell, k, l, r.order.price), isSell);
    SideIs(s, !isSell);
    SideIs(OpenRep(s, isSell, k, l, r.order.price), !isSell);
  }

  // Node i was taken for an order, and nothing else changed.
  ghost predicate Took(s: Rep, s': Rep, o: Order, clientId: nat, i: nat) {
    && i < |s'.on| && s'.on[i].active && At(s'.on, i) == Resting(o, clientId) && Unqueued(s', i)
    && s'.ids == s.ids && s'.prices == s.prices
    && Side(s', false) == Side(s, false) && Side(s', true) == Side(s, true)
    && (OnOwnSide(s, o.IsSell(), o.price) ==> OnOwnSide(s', o.IsSell(), o.price))
  }

  // The three outcomes of resting an order.
  lemma RestFull(b: Book, r: Resting)
    requires OrderCount(b) + b.leaked >= MAX_ARENA_ORDERS
    ensures Rest(b, r) == (b, Err(EngineFull))
  {
  }

  lemma RestNoLevel(b: Book, r: Resting)
    requires OrderCount(b) + b.leaked < MAX_ARENA_ORDERS && LevelCount(b) >= MAX_PRICE_LEVELS
    requires !HasPrice(if r.order.IsSell() then b.asks else b.bids, r.order.price)
    ensures Rest(b, r) == (b.(leaked := b.leaked + 1), Err(EngineFull))
  {
  }

  lemma RestPlaces(b: Book, c: Book, r: Resting)
    requires OrderCount(b) + b.leaked < MAX_ARENA_ORDERS
    requires HasPrice(if r.order.IsSell() then b.asks else b.bids, r.order.price) || LevelCount(b) < MAX_PRICE_LEVELS
    requires c == b.(bids := c.bids, asks := c.asks, clients := b.clients[KeyOf(r) := r.order.id])
    requires if r.order.IsSell() then c.asks == Place(b.asks, r, true) && c.bids == b.bids
             else c.bids == Place(b.bids, r, false) && c.asks == b.asks
    ensures Rest(b, r) == (c, Ok(()))
  {
  }

  // Taking a node does not disturb what resting needs to know.
  lemma AllocReady(r: Rep, i: nat, node: OrderNode, price: nat, isSell: bool)
    requires Inv(r) && i < |r.on| && !r.on[i].active
    ensures var r' := r.(on := r.on[i := node]);
            && Inv(r') && Unqueued(r', i)
            && Side(r', false) == Side(r, false) && Side(r', true) == Side(r, true)
            && (OnOwnSide(r, isSell, price) ==> OnOwnSide(r', isSell, price))
  {
    hide Inv, Unqueued, AbsSide;
    AllocKeeps(r, i, node);
    assert Ladder(r.(on := r.on[i := node]), isSell) == Ladder(r, isSell);
  }

  lemma ReadyQueues(s: Rep, s': Rep, isSell: bool, k: nat, l: nat, r: Resting, i: nat)
    requires Ready(s, s', isSell, k, l, r)
    ensures s'.on == s.on && s'.ids == s.ids && (Unqueued(s, i) ==> Unqueued(s', i))
    ensures k < |Ladder(s', isSell)| && Ladder(s', isSell)[k] == l && l < |s'.ln| && s'.ln[l].price == r.order.price
    ensures k < |Side(s', isSell)| && |Side(s', isSell)| == |Ladder(s', isSell)|
  {
  }

  lemma ReadyPlaces(s: Rep, s': Rep, s'': Rep, isSell: bool, k: nat, l: nat, r: Resting)
    requires Ready(s, s', isSell, k, l, r)
    requires Changed(s', s'', isSell, k, Side(s', isSell)[k].orders + [r])
    ensures Side(s'', isSell) == Place(Side(s, isSell), r, isSell) && Side(s'', !isSell) == Side(s, !isSell)
    ensures |Side(s'', isSell)| == |Side(s', isSell)| && |Flat(Side(s'', isSell))| == |Flat(Side(s, isSell))| + 1
  {
    hide Side, Place, Flat;
    var j := PlaceInserts(Side(s, isSell), r, isSell);
  }

  lemma PriceIsIndexed(r: Rep, isSell: bool, price: nat)
    requires Inv(r) && HasPrice(Side(r, isSell), price)
    ensures price in r.prices
  {
    hide Ladders, Queues, Homes, Indexed;
    var k :| 0 <= k < |Side(r, isSell)| && Side(r, isSell)[k].price == price;
    LadderLevel(r, isSell, k);
  }

  // No other side has the price, so the level found in the price index is on the order's own side.
  lemma JoinLevel(b: Book, r: Rep, o: Order, l: nat)
    requires Inv(r) && b.bids == Side(r, false) && b.asks == Side(r, true) && Clear(b, o.price, o.IsSell())
    requires o.price in r.prices && r.prices[o.price] == l
    ensures OnOwnSide(r, o.IsSell(), o.price)
  {
    InvStructure(r);
    assert l < |r.ln| && r.ln[l].active && r.ln[l].price == o.price;
    hide Structure, Indexed;
    var isSell, k := OnLadder(r, l);
    LadderLevel(r, isSell, k);
    SideSize(r, isSell);
    assert Side(r, isSell)[k].price == o.price;
    assert isSell == o.IsSell();
  }

  // The order's id is new, and its price is on its own side or nowhere.
  ghost predicate RestReady(r: Rep, o: Order) {
    && Sorted(Side(r, o.IsSell()), o.IsSell()) && o.id !in r.ids
    && (o.price !in r.prices ==> !HasPrice(Side(r, o.IsSell()), o.price))
    && (o.price in r.prices ==> OnOwnSide(r, o.IsSell(), o.price))
  }

  // What a well-formed book says about its snapshot when an order is about to rest.
  lemma {:induction false} RestFacts(b: Book, r: Rep, o: Order)
    requires Wf(b) && Inv(r) && b.bids == Side(r, false) && b.asks == Side(r, true)
    requires Clear(b, o.price, o.IsSell())
    requires forall x :: x in Orders(b) ==> x.order.id != o.id
    ensures RestReady(r, o) && |b.clients| <= OrderCount(b)
  {
    hide Inv, DistinctIds, NotCrossed, OnOwnSide, Clear, Side;
    SideOkSorted(b.bids, false);
    SideOkSorted(b.asks, true);
    ClientsSize(Orders(b), b.clients);
    IdsAreLive(r, o.id);
    if HasPrice(Side(r, o.IsSell()), o.price) { PriceIsIndexed(r, o.IsSell(), o.price); }
    if o.price in r.prices { JoinLevel(b, r, o, r.prices[o.price]); }
  }

  // ----- Cancelling -----------------------------------------------------------------------------

  // A side without the order at position j of its level k, and without the level if it was the only one.
  function WithoutOrder(levels: seq<Level>, k: nat, j: nat): seq<Level>
    requires k < |levels| && j < |levels[k].orders|
  {
    var q := levels[k].orders;
    if |q| == 1 then levels[..k] + levels[k + 1..]
    else levels[k := levels[k].(orders := q[..j] + q[j + 1..])]
  }

  lemma PlaceOf(r: Rep, isSell: bool, k: nat, j: nat)
    requires Structure(r) && k < |Ladder(r, isSell)|
    requires var l := Ladder(r, isSell)[k]; l < |r.queues| && j < |r.queues[l]|
    ensures k < |Side(r, isSell)| == |Ladder(r, isSell)|
    ensures Side(r, isSell)[k].orders == AbsQueue(r.on, r.queues[Ladder(r, isSell)[k]])
    ensures |Side(r, isSell)[k].orders| == |r.queues[Ladder(r, isSell)[k]]|
  {
    LadderLevel(r, isSell, k);
    hide Structure, QueueAt;
  }

  // After unlinking, the level is empty exactly when the order was its only one.
  lemma UnlinkedFacts(r: Rep, r': Rep, isSell: bool, k: nat, l: nat, j: nat)
    requires Structure(r') && k < |Ladder(r, isSell)| && Ladder(r, isSell)[k] == l
    requires l < |r.ln| && l < |r.queues| && j < |r.queues[l]| && r.queues[l][j] < |r.on| && r' == UnlinkRep(r, l, j)
    ensures l < |r'.ln| && Ladder(r', isSell) == Ladder(r, isSell) && r'.ln[l].price == r.ln[l].price
    ensures l < |r'.queues| && (r'.ln[l].headOrder == NULL_IDX <==> r'.queues[l] == [])
    ensures r'.queues[l] == [] <==> |r.queues[l]| == 1
  {
    LadderLevel(r', isSell, k);
    QueueHead(r'.on, r'.queues[l], r'.ln[l]);
    LinkedSize(OrderPrev(r'.on), OrderNext(r'.on), r'.queues[l]);
    hide Structure, Linked;
  }

  lemma CloseKeepsNodes(r: Rep, isSell: bool, k: nat, freeHead: nat)
    requires k < |Ladder(r, isSell)| && Ladder(r, isSell)[k] < |r.ln|
    ensures CloseRep(r, isSell, k, freeHead).on == r.on
  {
  }

  lemma RemovedSide(r: Rep, r': Rep, isSell: bool, k: nat, j: nat)
    requires k < |Side(r, isSell)| && j < |Side(r, isSell)[k].orders|
    requires var q := Side(r, isSell)[k].orders;
             if |q| == 1 then
               Side(r', isSell) == Side(r, isSell)[..k] + Side(r, isSell)[k + 1..]
                   && Side(r', !isSell) == Side(r, !isSell)
             else
               Changed(r, r', isSell, k, q[..j] + q[j + 1..])
    ensures Side(r', isSell) == WithoutOrder(Side(r, isSell), k, j) && Side(r', !isSell) == Side(r, !isSell)
  {
    hide Side;
  }

  // An id is indexed exactly when the represented book finds an order with it.
  lemma LocateFacts(b: Book, r: Rep, userId: nat, orderId: nat)
    requires Inv(r) && b.bids == Side(r, false) && b.asks == Side(r, true)
    ensures orderId in r.ids <==> FindIn(Orders(b), orderId).Some?
    ensures orderId !in r.ids && (userId, orderId) !in b.clients ==>
            CancelOrder(b, userId, orderId) == (b, Err(OrderNotFound))
    ensures orderId !in r.ids && (userId, orderId) in b.clients ==>
              && (b.clients[(userId, orderId)] in r.ids <==> FindIn(Orders(b), b.clients[(userId, orderId)]).Some?)
              && (b.clients[(userId, orderId)] !in r.ids ==> CancelOrder(b, userId, orderId) == (b, Err(OrderNotFound)))
  {
    hide Inv, Side, Flat;
    IdsAreLive(r, orderId);
    if (userId, orderId) in b.clients { IdsAreLive(r, b.clients[(userId, orderId)]); }
  }

  // The order behind an indexed id, and the book without it.
  lemma {:induction false} CancelFacts(b: Book, r: Rep, id: nat) returns (isSell: bool, k: nat, j: nat)
    requires Wf(b) && Inv(r) && b.bids == Side(r, false) && b.asks == Side(r, true) && id in r.ids
    ensures k < |Ladder(r, isSell)|
    ensures var e := r.ids[id];
            var l := Ladder(r, isSell)[k];
            && l < |r.ln| == |r.queues| && j < |r.queues[l]| && r.queues[l][j] == e.nodeIdx
            && e.nodeIdx < |r.on| < NULL_IDX && r.on[e.nodeIdx].active && r.on[e.nodeIdx].order.id == id
            && e == EntryOf(r.on[e.nodeIdx].order, e.nodeIdx) && isSell == (e.side == 1)
            && e.price in r.prices && r.prices[e.price] == l && r.ln[l].price == e.price
            && k < |Side(r, isSell)| && j < |Side(r, isSell)[k].orders|
            && FindIn(Orders(b), id) == Some(At(r.on, e.nodeIdx))
            && Delete(Side(r, isSell), id) == WithoutOrder(Side(r, isSell), k, j)
            && Delete(Side(r, !isSell), id) == Side(r, !isSell)
  {
    hide Inv, Side, NotCrossed, ClientsLive, Delete;
    isSell, k, j := EntryLeads(r, id);
    var x := At(r.on, r.ids[id].nodeIdx);
    FlatOk(b.bids, false);
    FlatOk(b.asks, true);
    SideDistinct(b);
    DeleteAt(Side(r, isSell), k, j, id);
    assert x in Orders(b);
    DistinctFind(Orders(b), id) by { FindPresent(Orders(b), x); }
    FindPresent(Orders(b), x);
    FindPresent(Flat(Side(r, isSell)), x);
    if isSell {
      DisjointSwap(Flat(b.bids), Flat(b.asks));
      DisjointFind(Flat(b.asks), Flat(b.bids), id);
    } else {
      DisjointFind(Flat(b.bids), Flat(b.asks), id);
    }
    DeleteFlat(Side(r, !isSell), id);
  }

  // A cancel request for orderId looks at id.
  ghost predicate Leads(b: Book, userId: nat, orderId: nat, id: nat) {
    id == orderId || (FindIn(Orders(b), orderId).None? && (userId, orderId) in b.clients
        && id == b.clients[(userId, orderId)])
  }

  lemma CancelFound(b: Book, userId: nat, orderId: nat, id: nat, x: Resting)
    requires FindIn(Orders(b), id) == Some(x) && Leads(b, userId, orderId, id)
    ensures x.order.id == id
    ensures CancelOrder(b, userId, orderId)
         == if x.order.userId != userId then (b, Err(Unauthorized))
            else (b.(bids := Delete(b.bids, id), asks := Delete(b.asks, id), clients := b.clients - {KeyOf(x)}),
                Ok(x.order))
  {
    hide Delete;
  }

  // Slots after a successful cancel.
  lemma CancelledCounts(b: Book, c: Book, userId: nat, orderId: nat, id: nat)
    requires Wf(b) && FindIn(Orders(b), id).Some?
    requires (c, Ok(FindIn(Orders(b), id).value.order)) == CancelOrder(b, userId, orderId)
    ensures Wf(c) && OrderCount(c) == OrderCount(b) - 1
  {
    hide Wf, CancelOrder;
    var k := CancelIsExact(b, userId, orderId);
    CancelledSize(b, c, k);
  }

  // The outcome of a submission from its sweep.
  lemma SubmitIs(b: Book, o: Order, clientId: nat)
    ensures var stamped := Stamp(b, o);
            var s := Swept(b, stamped, clientId);
            var swept := AfterSweep(b.(orderSeq := StampedSeq(b, o)), o.IsSell(), s);
            var report := ExecutionReport(o.qty - s.left, s.left, s.stp);
            var (rested, r) := Rest(swept, Resting(stamped.(qty := s.left), clientId));
            Submit(b, o, clientId) ==
              if s.stp || s.left == 0 || o.Kind() != Limit then Outcome(swept, Ok(report), s.trades)
              else Outcome(rested, if r.Ok? then Ok(report) else Err(r.error), s.trades)
    ensures Swept(b, Stamp(b, o), clientId).left <= o.qty
  {
    hide MatchSide, Rest;
  }

  // What a submission may rely on before matching, and a remainder before resting.
  lemma SubmitFacts(b: Book, o: Order, clientId: nat)
    requires Wf(b) && FreshId(b, o)
    ensures var b0 := b.(orderSeq := StampedSeq(b, o));
            var stamped := Stamp(b, o);
            var s := Swept(b0, stamped, clientId);
            var c := AfterSweep(b0, o.IsSell(), s);
            && s == Swept(b, stamped, clientId) && stamped.IsSell() == o.IsSell()
            && OrderCount(b0) == OrderCount(b) && LevelCount(b0) == LevelCount(b)
            && Wf(b0) && Wf(c) && Wf(Submit(b, o, clientId).book)
            && (forall x :: x in Orders(c) ==> x.order.id != stamped.id)
            && (!s.stp && s.left > 0 && o.Kind() == Limit ==> Clear(c, o.price, o.IsSell()))
  {
    hide MatchSide, Orders, SideOk, NotCrossed, DistinctIds, ClientsLive, Crosses;
    var stamped := Stamp(b, o);
    var b0 := b.(orderSeq := StampedSeq(b, o));
    SeqKeepsWf(b, StampedSeq(b, o));
    SweepKeepsWf(b0, stamped, clientId);
    SubmitKeepsWf(b, o, clientId);
    SameOrdersOf(b, b0);
    SameIds(b0, stamped, clientId, stamped.id);
    var s := Swept(b0, stamped, clientId);
    if !s.stp && s.left > 0 && o.Kind() == Limit { SweepClears(b0, stamped, clientId); }
  }
}
