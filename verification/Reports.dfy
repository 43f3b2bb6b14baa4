/** What one accepted submission does to a well-formed book and reports about it, without reference to
    how it is matched; and what market data says about the resting orders. */
module Reports {
  import opened Types
  import opened Matcher
  import opened PriceTime
  import opened BookSafety
  import opened BookEffects
  import opened BookFacts

  // Position k is behind every order that is at least as good, and before every order that is worse.
  ghost predicate BehindEquals(q: seq<Resting>, k: nat, price: nat, isSell: bool) {
    && k <= |q|
    && (forall i :: 0 <= i < k ==> !Better(isSell, price, q[i].order.price))
    && (forall i :: k <= i < |q| ==> Better(isSell, price, q[i].order.price))
  }

  lemma AllWorse(levels: seq<Level>, price: nat, isSell: bool)
    requires SideOk(levels, isSell) && (levels != [] ==> Better(isSell, price, levels[0].price))
    ensures forall r :: r in Flat(levels) ==> Better(isSell, price, r.order.price)
  {
    if levels != [] { BestFirst(levels, isSell); }
  }

  lemma BehindShift(a: seq<Resting>, t: seq<Resting>, k: nat, price: nat, isSell: bool)
    requires BehindEquals(t, k, price, isSell) && forall r :: r in a ==> !Better(isSell, price, r.order.price)
    ensures BehindEquals(a + t, |a| + k, price, isSell)
  {
    var q := a + t;
    forall i | 0 <= i < |a| + k ensures !Better(isSell, price, q[i].order.price) {
      if i < |a| { assert q[i] in a; } else { assert q[i] == t[i - |a|]; }
    }
    forall i | |a| + k <= i < |q| ensures Better(isSell, price, q[i].order.price) { assert q[i] == t[i - |a|]; }
  }

  // Time priority: an order that comes to rest queues behind all orders of its price and better.
  lemma {:induction false} PlacedBehindEquals(levels: seq<Level>, r: Resting, isSell: bool) returns (k: nat)
    requires SideOk(levels, isSell)
    ensures BehindEquals(Flat(levels), k, r.order.price, isSell)
    ensures Flat(Place(levels, r, isSell)) == Flat(levels)[..k] + [r] + Flat(levels)[k..]
    decreases |levels|
  {
    hide SideOk, BehindEquals;
    var placed, price := Place(levels, r, isSell), r.order.price;
    if levels == [] || Better(isSell, price, levels[0].price) {
      k := 0;
      assert placed[1..] == levels;
      AllWorse(levels, price, isSell);
      BehindAll(Flat(levels), price, isSell);
    } else {
      var a, tail := levels[0].orders, levels[1..];
      SideTail(levels, isSell);
      HeadPrice(levels, isSell);
      if levels[0].price == price {
        k := 0;
        assert placed[1..] == tail;
        AllWorse(tail, price, isSell) by { if |levels| > 1 { NextWorse(levels, isSell); } }
        BehindAll(Flat(tail), price, isSell);
      } else {
        k := PlacedBehindEquals(tail, r, isSell);
        assert placed[1..] == Place(tail, r, isSell);
      }
      BehindShift(a, Flat(tail), k, price, isSell);
      SplitAt(a, Flat(tail), k, r);
      assert a + [r] + Flat(tail) == a + ([r] + Flat(tail));
      k := k + |a|;
    }
  }

  lemma BehindAll(q: seq<Resting>, price: nat, isSell: bool)
    requires forall r :: r in q ==> Better(isSell, price, r.order.price)
    ensures BehindEquals(q, 0, price, isSell)
  {
  }

  lemma HeadPrice(levels: seq<Level>, isSell: bool)
    requires SideOk(levels, isSell) && levels != []
    ensures forall r :: r in levels[0].orders ==> r.order.price == levels[0].price
  {
  }

  lemma NextWorse(levels: seq<Level>, isSell: bool)
    requires SideOk(levels, isSell) && |levels| > 1
    ensures Better(isSell, levels[0].price, levels[1].price)
  {
  }

  // Does a remainder come to rest?
  predicate Rests(o: Order, report: ExecutionReport) {
    o.Kind() == Limit && !report.stpTriggered && report.remainingQty > 0
  }

  // The outcome of an accepted submission: what it reports, what is left of the other side, and where
  // its remainder rests.
  lemma {:induction false} SubmissionIsExact(b: Book, o: Order, clientId: nat) returns (k: nat)
    requires Wf(b) && FreshId(b, o) && Submit(b, o, clientId).result.Ok?
    ensures var out, p := Submit(b, o, clientId), Stamp(b, o);
            var report := out.result.value;
            var q, after := Flat(if o.IsSell() then b.bids else b.asks),
              Flat(if o.IsSell() then out.book.bids else out.book.asks);
            var n := Eligible(p, q);
            && report.executedQty == Traded(out.trades) == Min(o.qty, Volume(q[..n]))
            && report.executedQty + report.remainingQty == o.qty
            && (report.stpTriggered <==> MeetsOwn(p, q))
            && after == Drain(q[..n], o.qty) + q[n..]
    ensures var out, p := Submit(b, o, clientId), Stamp(b, o);
            var report := out.result.value;
            var own, after := Flat(if o.IsSell() then b.asks else b.bids),
              Flat(if o.IsSell() then out.book.asks else out.book.bids);
            if Rests(o, report) then
              BehindEquals(own, k, o.price, o.IsSell())
                  && after == own[..k] + [Resting(p.(qty := report.remainingQty), clientId)] + own[k..]
            else after == own
  {
    hide MatchSide, Flat, NotCrossed, DistinctIds, ClientsLive, SideOk, Drain, Volume, Rest;
    var p := Stamp(b, o);
    var levels := if o.IsSell() then b.bids else b.asks;
    SweepIsWaterfall(p, o.qty, clientId, levels, b.clients, b.tradeSeq, !o.IsSell());
    var s := Swept(b, p, clientId);
    var swept := AfterSweep(b.(orderSeq := StampedSeq(b, o)), o.IsSell(), s);
    var own := if o.IsSell() then b.asks else b.bids;
    k := 0;
    if !s.stp && s.left > 0 && o.Kind() == Limit {
      k := PlacedBehindEquals(own, Resting(p.(qty := s.left), clientId), o.IsSell());
      RestOwn(swept, Resting(p.(qty := s.left), clientId));
    }
  }

  lemma RestOwn(b: Book, r: Resting)
    requires Rest(b, r).1.Ok?
    ensures var c := Rest(b, r).0;
            if r.order.IsSell() then c.asks == Place(b.asks, r, true) && c.bids == b.bids
            else c.bids == Place(b.bids, r, false) && c.asks == b.asks
  {
    hide Place, HasPrice, Flat;
  }

  // The best opposite level is out of the order's reach, if there is one.
  predicate MissesBest(b: Book, o: Order) {
    var opposite := if o.IsSell() then b.bids else b.asks;
    opposite == [] || !Crosses(o, opposite[0].price)
  }

  // A sweep trades, or stops at an own order, exactly when the best level is in reach.
  lemma FirstFills(o: Order, clientId: nat, levels: seq<Level>, clients: map<ClientKey, nat>, tid: nat, isSell: bool)
    requires SideOk(levels, isSell) && o.qty > 0
    ensures var s := MatchSide(o, o.qty, clientId, levels, clients, tid);
            s.trades == [] && !s.stp <==> levels == [] || !Crosses(o, levels[0].price)
  {
    if levels != [] && Crosses(o, levels[0].price) {
      var f := MatchQueue(o, o.qty, clientId, levels[0].orders, clients, tid);
      assert levels[0].orders != [];
      assert f.trades != [] || f.stp;
    }
  }

  lemma SameBounds(o: Order, id: nat, price: nat)
    ensures Crosses(o.(id := id), price) == Crosses(o, price)
  {
  }

  lemma SameMiss(b: Book, o: Order, id: nat)
    ensures (MissesBest(b, o.(id := id)) <==> MissesBest(b, o)) && (NoSlot(b, o.(id := id)) <==> NoSlot(b, o))
  {
    hide NoSlot, Crosses;
    SameSlots(b, o, id);
    var opposite := if o.IsSell() then b.bids else b.asks;
    if opposite != [] { SameBounds(o, id, opposite[0].price); }
  }

  lemma SidesOk(b: Book)
    requires Wf(b)
    ensures SideOk(b.bids, false) && SideOk(b.asks, true)
  {
  }

  lemma FlatQtys(b: Book)
    requires Wf(b)
    ensures forall r :: r in Flat(b.bids) || r in Flat(b.asks) ==> r.order.qty > 0
  {
    hide Flat, NotCrossed, DistinctIds, ClientsLive;
    FlatOk(b.bids, false);
    FlatOk(b.asks, true);
  }

  // What a caller can tell beforehand: a submission is refused when it misses the best level and no slot
  // is left for it.
  lemma RefusedOnBook(b: Book, o: Order, clientId: nat)
    requires Wf(b) && FreshId(b, o)
    ensures Submit(b, o, clientId).result.Err? <==> o.Kind() == Limit && o.qty > 0 && NoSlot(b, o) && MissesBest(b, o)
  {
    hide Wf, Flat, Submit, NoSlot, Crosses, MatchSide;
    var p := Stamp(b, o);
    RefusalChangesNothing(b, o, clientId);
    SidesOk(b);
    SameMiss(b, o, p.id);
    if o.qty > 0 {
      FirstFills(p, clientId, if o.IsSell() then b.bids else b.asks, b.clients, b.tradeSeq, !o.IsSell());
    }
  }

  // The submission takes an order slot and finds no level slot.
  ghost predicate LosesSlot(b: Book, o: Order) {
    && o.Kind() == Limit && o.qty > 0 && MissesBest(b, o)
    && OrderCount(b) + b.leaked < MAX_ARENA_ORDERS && LevelCount(b) == MAX_PRICE_LEVELS
    && !HasPrice(if o.IsSell() then b.asks else b.bids, o.price)
  }

  // An order slot is lost exactly so, one at a time.
  lemma SlotLostExactlyWhen(b: Book, o: Order, clientId: nat)
    requires Wf(b) && FreshId(b, o)
    ensures var out := Submit(b, o, clientId);
            && out.book.leaked == b.leaked + (if LosesSlot(b, o) then 1 else 0)
            && (LosesSlot(b, o) <==> out.result.Err? && OrderCount(b) + b.leaked < MAX_ARENA_ORDERS)
  {
    hide Flat, Submit, MissesBest, MatchSide, HasPrice;
    RefusalChangesNothing(b, o, clientId);
    RefusedOnBook(b, o, clientId);
    if Submit(b, o, clientId).result.Ok? { AcceptedKeepsSlots(b, o, clientId); }
  }

  lemma AcceptedKeepsSlots(b: Book, o: Order, clientId: nat)
    requires Submit(b, o, clientId).result.Ok?
    ensures Submit(b, o, clientId).book.leaked == b.leaked
  {
    hide Flat, MatchSide, HasPrice, Place;
  }

  // What a caller can tell beforehand: a limit order comes to rest when neither its own orders nor the
  // eligible quantity stop it, and it trades first or finds a slot.
  ghost predicate ComesToRest(b: Book, o: Order) {
    var q := Flat(if o.IsSell() then b.bids else b.asks);
    var n := Eligible(o, q);
    o.Kind() == Limit && !MeetsOwn(o, q) && Volume(q[..n]) < o.qty && (n > 0 || !NoSlot(b, o))
  }

  lemma RestsExactlyWhen(b: Book, o: Order, clientId: nat)
    requires Wf(b) && FreshId(b, o)
    ensures var out := Submit(b, o, clientId);
            out.result.Ok? && Rests(o, out.result.value) <==> ComesToRest(b, o)
  {
    hide MatchSide, Flat, NotCrossed, DistinctIds, ClientsLive, SideOk, Drain, Volume, Rest, NoSlot, Submit;
    var p := Stamp(b, o);
    var levels := if o.IsSell() then b.bids else b.asks;
    var q := Flat(levels);
    SweepIsWaterfall(p, o.qty, clientId, levels, b.clients, b.tradeSeq, !o.IsSell());
    SameEligible(o, p.id, q);
    RefusalChangesNothing(b, o, clientId);
    VolumeNone(q);
    if Submit(b, o, clientId).result.Ok? {
      var k := SubmissionIsExact(b, o, clientId);
    }
  }

  lemma SameRest(b: Book, o: Order, id: nat)
    ensures ComesToRest(b, o.(id := id)) <==> ComesToRest(b, o)
  {
    hide Flat, NoSlot, MeetsOwn;
    SameEligible(o, id, Flat(if o.IsSell() then b.bids else b.asks));
    SameSlots(b, o, id);
  }

  // ----- Market data ------------------------------------------------------------------------------

  // How much rests at a price, and in how many orders.
  function QtyAt(q: seq<Resting>, price: nat): nat {
    if q == [] then 0 else (if q[0].order.price == price then q[0].order.qty else 0) + QtyAt(q[1..], price)
  }

  function CountAt(q: seq<Resting>, price: nat): nat {
    if q == [] then 0 else (if q[0].order.price == price then 1 else 0) + CountAt(q[1..], price)
  }

  lemma {:induction false} AtConcat(a: seq<Resting>, b: seq<Resting>, price: nat)
    ensures QtyAt(a + b, price) == QtyAt(a, price) + QtyAt(b, price)
    ensures CountAt(a + b, price) == CountAt(a, price) + CountAt(b, price)
  {
    if a == [] {
      assert a + b == b;
    } else {
      assert (a + b)[1..] == a[1..] + b;
      AtConcat(a[1..], b, price);
    }
  }

  lemma {:induction false} AtNone(q: seq<Resting>, price: nat)
    requires forall r :: r in q ==> r.order.price != price
    ensures QtyAt(q, price) == 0 && CountAt(q, price) == 0
  {
    if q != [] { AtNone(q[1..], price); }
  }

  lemma {:induction false} AtAll(q: seq<Resting>, price: nat)
    requires forall r :: r in q ==> r.order.price == price
    ensures QtyAt(q, price) == Volume(q) && CountAt(q, price) == |q|
  {
    if q != [] { AtAll(q[1..], price); }
  }

  lemma {:induction false} LevelHoldsPrice(levels: seq<Level>, i: nat, isSell: bool)
    requires SideOk(levels, isSell) && i < |levels|
    ensures DepthLevel(levels[i]) ==
            MarketDepthLevel(levels[i].price, QtyAt(Flat(levels), levels[i].price),
                CountAt(Flat(levels), levels[i].price))
    decreases |levels|
  {
    hide SideOk;
    var p := levels[i].price;
    AtConcat(levels[0].orders, Flat(levels[1..]), p);
    HeadPrice(levels, isSell);
    SideTail(levels, isSell);
    if i == 0 {
      AtAll(levels[0].orders, p);
      AllWorse(levels[1..], p, isSell) by { if |levels| > 1 { NextWorse(levels, isSell); } }
      AtNone(Flat(levels[1..]), p);
    } else {
      SortedPair(levels, i, isSell);
      AtNone(levels[0].orders, p);
      LevelHoldsPrice(levels[1..], i - 1, isSell);
    }
  }

  lemma SortedPair(levels: seq<Level>, i: nat, isSell: bool)
    requires SideOk(levels, isSell) && 0 < i < |levels|
    ensures Better(isSell, levels[0].price, levels[i].price)
  {
  }

  lemma PairOf(levels: seq<Level>, i: nat, j: nat, isSell: bool)
    requires SideOk(levels, isSell) && i < j < |levels|
    ensures Better(isSell, levels[i].price, levels[j].price)
  {
  }

  lemma LevelPositive(levels: seq<Level>, i: nat, isSell: bool)
    requires SideOk(levels, isSell) && i < |levels|
    ensures Volume(levels[i].orders) > 0 && |levels[i].orders| > 0
  {
    assert levels[i].orders[0] in levels[i].orders;
  }

  lemma {:induction false} LevelOf(levels: seq<Level>, r: Resting, isSell: bool) returns (j: nat)
    requires SideOk(levels, isSell) && r in Flat(levels)
    ensures j < |levels| && levels[j].price == r.order.price
    decreases |levels|
  {
    hide SideOk;
    HeadPrice(levels, isSell);
    if r in levels[0].orders {
      j := 0;
    } else {
      SideTail(levels, isSell);
      j := LevelOf(levels[1..], r, isSell);
      j := j + 1;
    }
  }

  // Depth lists the best prices, best first, each with everything that rests at it; what it leaves out
  // is worse than all it lists, and it leaves something out only when it is full.
  lemma DepthIsBest(levels: seq<Level>, n: nat, isSell: bool)
    requires SideOk(levels, isSell)
    ensures var d, q := Depth(levels, n), Flat(levels);
            && |d| <= n
            && (forall i, j :: 0 <= i < j < |d| ==> if isSell then d[i].price < d[j].price else d[i].price > d[j].price)
            && (forall i :: 0 <= i < |d| ==>
                  d[i].totalQty == QtyAt(q, d[i].price) > 0 && d[i].orderCount == CountAt(q, d[i].price) > 0)
            && (forall r :: r in q ==>
                  || (exists i :: 0 <= i < |d| && d[i].price == r.order.price)
                  || (|d| == n && forall i :: 0 <= i < |d| ==>
                        if isSell then d[i].price < r.order.price else d[i].price > r.order.price))
  {
    hide SideOk;
    var d, q := Depth(levels, n), Flat(levels);
    forall i | 0 <= i < |d|
      ensures d[i].totalQty == QtyAt(q, d[i].price) > 0 && d[i].orderCount == CountAt(q, d[i].price) > 0
    {
      LevelHoldsPrice(levels, i, isSell);
      LevelPositive(levels, i, isSell);
    }
    forall i, j | 0 <= i < j < |d| ensures Better(isSell, d[i].price, d[j].price) { PairOf(levels, i, j, isSell); }
    forall r | r in q
      ensures || (exists i :: 0 <= i < |d| && d[i].price == r.order.price)
              || (|d| == n && forall i :: 0 <= i < |d| ==> Better(isSell, d[i].price, r.order.price))
    {
      var j := LevelOf(levels, r, isSell);
      if j < |d| {
        assert d[j].price == r.order.price;
      } else {
        forall i | 0 <= i < |d| ensures Better(isSell, d[i].price, r.order.price) { PairOf(levels, i, j, isSell); }
      }
    }
  }

  // The best price and quantity of a side: nothing if nothing rests, and otherwise the highest bid or the
  // lowest ask at which something rests, with everything that rests there.
  lemma BestIsTop(levels: seq<Level>, isSell: bool)
    requires SideOk(levels, isSell)
    ensures var q := Flat(levels);
            && (Best(levels).None? <==> q == [])
            && (Best(levels).Some? ==>
                  var (p, n) := Best(levels).value;
                  && (exists r :: r in q && r.order.price == p) && n == QtyAt(q, p) > 0
                  && forall r :: r in q ==> if isSell then p <= r.order.price else p >= r.order.price)
  {
    hide SideOk, QtyAt, CountAt;
    if levels != [] {
      LevelHoldsPrice(levels, 0, isSell);
      LevelPositive(levels, 0, isSell);
      HeadPrice(levels, isSell);
      BestFirst(levels, isSell);
      var r := levels[0].orders[0];
      assert r in levels[0].orders && r in Flat(levels);
    }
  }
}
