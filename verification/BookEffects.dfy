/** Exactly what a refused submission, a cancel, and resting followed by cancelling do to a book. */
module BookEffects {
  import opened Types
  import opened Matcher
  import opened PriceTime
  import opened BookLaws
  import opened BookSafety

  // ----- Refused submissions ----------------------------------------------------------------------

  // A sweep that runs out of orders it may trade with either traded nothing or emptied a level.
  lemma SweepShrinks(o: Order, qty: nat, clientId: nat, levels: seq<Level>, clients: map<ClientKey, nat>, tid: nat)
    requires forall i :: 0 <= i < |levels| ==>
             levels[i].orders != [] && forall r :: r in levels[i].orders ==> r.order.qty > 0
    requires var s := MatchSide(o, qty, clientId, levels, clients, tid); s.left > 0 && !s.stp
    ensures var s := MatchSide(o, qty, clientId, levels, clients, tid);
            if s.trades == [] then s == Sweep(qty, levels, clients, [], false)
            else |s.levels| < |levels| && |Flat(s.levels)| < |Flat(levels)|
  {
    hide MatchSide, Crosses;
    SideUnfolds(o, qty, clientId, levels, clients, tid);
    if qty > 0 && levels != [] && Crosses(o, levels[0].price) {
      var f := MatchQueue(o, qty, clientId, levels[0].orders, clients, tid);
      if f.queue == [] {
        assert f.trades != [];
        SweepSuffix(o, f.left, clientId, levels[1..], f.clients, tid + |f.trades|);
        SuffixShorter(Flat(MatchSide(o, f.left, clientId, levels[1..], f.clients, tid + |f.trades|).levels),
            Flat(levels[1..]));
      }
    }
  }

  ghost predicate NoSlot(b: Book, o: Order) {
    || OrderCount(b) + b.leaked == MAX_ARENA_ORDERS
    || (LevelCount(b) == MAX_PRICE_LEVELS && !HasPrice(if o.IsSell() then b.asks else b.bids, o.price))
  }

  lemma SameSlots(b: Book, o: Order, id: nat)
    ensures NoSlot(b, o.(id := id)) <==> NoSlot(b, o)
  {
  }

  // A submission is refused exactly when it would rest untouched and there is no slot for it; the
  // book then keeps every order, level, client entry and trade number.
  lemma RefusalChangesNothing(b: Book, o: Order, clientId: nat)
    requires Wf(b) && FreshId(b, o)
    ensures var out := Submit(b, o, clientId);
            var s := Swept(b, Stamp(b, o), clientId);
            && (out.result.Err? <==> o.Kind() == Limit && o.qty > 0 && s.trades == [] && !s.stp && NoSlot(b, o))
            && (out.result.Err? ==>
                  && out.result.error == EngineFull && out.trades == []
                  && out.book == b.(orderSeq := StampedSeq(b, o), leaked := out.book.leaked)
                  && out.book.leaked == b.leaked + (if OrderCount(b) + b.leaked == MAX_ARENA_ORDERS then 0 else 1))
  {
    hide MatchSide, SideOk, NotCrossed, DistinctIds, ClientsLive, Flat, Place, HasPrice;
    var stamped := Stamp(b, o);
    var s := Swept(b, stamped, clientId);
    var levels := if o.IsSell() then b.bids else b.asks;
    SideQtys(b.bids, false);
    SideQtys(b.asks, true);
    if !s.stp && s.left > 0 && o.Kind() == Limit {
      SweepShrinks(stamped, o.qty, clientId, levels, b.clients, b.tradeSeq);
      if s.trades == [] {
        assert AfterSweep(b, o.IsSell(), s) == b;
      }
    } else if !s.stp && s.left == 0 && s.trades == [] {
      SweepIsWaterfall(stamped, o.qty, clientId, levels, b.clients, b.tradeSeq, !o.IsSell());
      assert o.qty == 0;
    }
  }

  // ----- Cancels ----------------------------------------------------------------------------------

  lemma {:induction false} DeletesAt(q: seq<Resting>, id: nat) returns (k: nat)
    requires FindIn(q, id).Some?
    ensures k < |q| && q[k] == FindIn(q, id).value && DeleteFrom(q, id) == q[..k] + q[k + 1..]
  {
    if q[0].order.id == id {
      k := 0;
    } else {
      var j := DeletesAt(q[1..], id);
      SplitTail(q, j);
      k := j + 1;
    }
  }

  lemma SplitTail(q: seq<Resting>, j: nat)
    requires j + 1 < |q|
    ensures q[1..][j] == q[j + 1] && [q[0]] + (q[1..][..j] + q[1..][j + 1..]) == q[..j + 1] + q[j + 2..]
  {
  }

  lemma {:induction false} DeletesNothing(q: seq<Resting>, id: nat)
    requires FindIn(q, id).None?
    ensures DeleteFrom(q, id) == q
  {
    if q != [] { DeletesNothing(q[1..], id); }
  }

  lemma ConsConcat(r: Resting, a: seq<Resting>, b: seq<Resting>)
    ensures [r] + a + b == [r] + (a + b)
  {
  }

  lemma {:induction false} FindConcat(a: seq<Resting>, b: seq<Resting>, id: nat)
    ensures FindIn(a + b, id) == if FindIn(a, id).Some? then FindIn(a, id) else FindIn(b, id)
    ensures DeleteFrom(a + b, id) == if FindIn(a, id).Some? then DeleteFrom(a, id) + b else a + DeleteFrom(b, id)
  {
    if a == [] {
      assert a + b == b;
    } else {
      assert (a + b)[0] == a[0] && (a + b)[1..] == a[1..] + b;
      FindConcat(a[1..], b, id);
      ConsConcat(a[0], DeleteFrom(a[1..], id), b);
      ConsConcat(a[0], a[1..], DeleteFrom(b, id));
      assert a == [a[0]] + a[1..];
    }
  }

  // Deleting from the ladder deletes from the priority order, and from nowhere when there is no match.
  lemma {:induction false} DeleteFlat(levels: seq<Level>, id: nat)
    ensures Flat(Delete(levels, id)) == DeleteFrom(Flat(levels), id)
    ensures FindIn(Flat(levels), id).None? ==> Delete(levels, id) == levels
  {
    if levels != [] {
      var head, tail := levels[0], levels[1..];
      var q := DeleteFrom(head.orders, id);
      FindConcat(head.orders, Flat(tail), id);
      if FindIn(head.orders, id).Some? {
        assert ([head.(orders := q)] + tail)[1..] == tail;
      } else {
        DeleteFlat(tail, id);
        assert ([head] + Delete(tail, id))[1..] == Delete(tail, id);
      }
    }
  }

  lemma {:induction false} DeleteSideOk(levels: seq<Level>, id: nat, isSell: bool)
    requires SideOk(levels, isSell)
    ensures SideOk(Delete(levels, id), isSell)
    ensures forall p :: HasPrice(Delete(levels, id), p) ==> HasPrice(levels, p)
    ensures |Delete(levels, id)| <= |levels|
  {
    hide SideOk, QueueOk, HasPrice, Sorted;
    if levels != [] {
      var head, tail := levels[0], levels[1..];
      SideTail(levels, isSell);
      forall p ensures HasPrice(levels, p) <==> head.price == p || HasPrice(tail, p) { HasPriceTail(levels, p); }
      var d := Delete(levels, id);
      if FindIn(head.orders, id).Some? {
        var q := DeleteFrom(head.orders, id);
        if q != [] {
          QueueOkDelete(head.orders, id, head.price, isSell);
          SideCons(head.(orders := q), tail, isSell);
          forall p ensures HasPrice(d, p) <==> head.price == p || HasPrice(tail, p) { HasPriceTail(d, p); }
        }
      } else {
        DeleteSideOk(tail, id, isSell);
        SideCons(head, Delete(tail, id), isSell);
        assert d[1..] == Delete(tail, id);
        forall p ensures HasPrice(d, p) <==> head.price == p || HasPrice(d[1..], p) { HasPriceTail(d, p); }
      }
    }
  }

  lemma QueueOkDelete(q: seq<Resting>, id: nat, price: nat, isSell: bool)
    requires QueueOk(q, price, isSell) && FindIn(q, id).Some?
    ensures QueueOk(DeleteFrom(q, id), price, isSell)
  {
    var k := DeletesAt(q, id);
  }

  lemma DisjointFind(x: seq<Resting>, y: seq<Resting>, id: nat)
    requires DisjointIds(x, y) && FindIn(x, id).Some?
    ensures FindIn(y, id).None?
  {
  }

  // With distinct ids an order is found on one side only, and deleting by id removes just that one.
  lemma CancelOrders(b: Book, id: nat) returns (k: nat)
    requires Wf(b) && FindIn(Orders(b), id).Some?
    ensures k < |Orders(b)| && Orders(b)[k] == FindIn(Orders(b), id).value
    ensures Flat(Delete(b.bids, id)) + Flat(Delete(b.asks, id)) == Orders(b)[..k] + Orders(b)[k + 1..]
  {
    var x, y := Flat(b.bids), Flat(b.asks);
    FindConcat(x, y, id);
    DeleteFlat(b.bids, id);
    DeleteFlat(b.asks, id);
    SideDistinct(b);
    k := DeletesAt(Orders(b), id);
    if FindIn(x, id).Some? {
      DisjointFind(x, y, id);
      DeletesNothing(y, id);
    } else {
      DeletesNothing(x, id);
    }
  }

  lemma RemoveDistinct(q: seq<Resting>, k: nat)
    requires k < |q| && DistinctIds(q)
    ensures DistinctIds(q[..k] + q[k + 1..])
  {
    var t := q[..k] + q[k + 1..];
    forall i, j | 0 <= i < j < |t| ensures t[i].order.id != t[j].order.id {
      assert t[i] == if i < k then q[i] else q[i + 1];
      assert t[j] == if j < k then q[j] else q[j + 1];
    }
  }

  lemma RemoveClients(q: seq<Resting>, k: nat, clients: map<ClientKey, nat>)
    requires k < |q| && ClientsLive(q, clients)
    ensures ClientsLive(q[..k] + q[k + 1..], clients - {KeyOf(q[k])})
  {
    var t := q[..k] + q[k + 1..];
    assert q == q[..k] + [q[k]] + q[k + 1..];
    forall key | key in clients && key != KeyOf(q[k])
      ensures exists x :: x in t && x.order.id == clients[key] && KeyOf(x) == key
    {
      var x :| x in q && x.order.id == clients[key] && KeyOf(x) == key;
      assert x in t;
    }
  }

  lemma DeleteNotCrossed(b: Book, id: nat)
    requires Wf(b)
    ensures NotCrossed(Delete(b.bids, id), Delete(b.asks, id))
  {
    hide Delete, DistinctIds, ClientsLive, Flat;
    DeleteSideOk(b.bids, id, false);
    DeleteSideOk(b.asks, id, true);
    var x, y := Delete(b.bids, id), Delete(b.asks, id);
    forall i, j | 0 <= i < |x| && 0 <= j < |y| ensures x[i].price < y[j].price {
      assert HasPrice(x, x[i].price) && HasPrice(y, y[j].price);
    }
  }

  lemma FindPresent(q: seq<Resting>, x: Resting)
    requires x in q
    ensures FindIn(q, x.order.id).Some?
  {
  }

  lemma DistinctFind(q: seq<Resting>, id: nat)
    requires DistinctIds(q) && FindIn(q, id).Some?
    ensures forall x :: x in q && x.order.id == id ==> x == FindIn(q, id).value
  {
  }

  lemma CancelledSize(b: Book, c: Book, k: nat)
    requires k < |Orders(b)| && Orders(c) == Orders(b)[..k] + Orders(b)[k + 1..]
    ensures OrderCount(c) == OrderCount(b) - 1
    ensures forall r :: r in Orders(c) ==> r in Orders(b)
  {
    assert |Orders(c)| == |Orders(b)| - 1;
  }

  // A cancel succeeds exactly when it names an order of the requester, by exchange id or else by the
  // requester's own client id. It removes that one order and keeps all others in place; a failed
  // cancel changes nothing.
  lemma {:induction false} CancelIsExact(b: Book, userId: nat, id: nat) returns (k: nat)
    requires Wf(b)
    ensures var (c, r) := CancelOrder(b, userId, id);
            var named := exists x :: x in Orders(b) && x.order.id == id;
            && Wf(c)
            && (r.Ok? <==>
                  if named then exists x :: x in Orders(b) && x.order.id == id && x.order.userId == userId
                  else (userId, id) in b.clients)
            && (r.Ok? ==>
                  && k < |Orders(b)| && r.value == Orders(b)[k].order && r.value.userId == userId
                  && r.value.id == (if named then id else b.clients[(userId, id)])
                  && Orders(c) == Orders(b)[..k] + Orders(b)[k + 1..]
                  && c.clients == b.clients - {KeyOf(Orders(b)[k])})
            && c == b.(bids := c.bids, asks := c.asks, clients := c.clients)
            && (r.Err? ==> c == b && r.error == if named then Unauthorized else OrderNotFound)
  {
    hide Flat, Delete, SideOk, NotCrossed;
    var (c, r) := CancelOrder(b, userId, id);
    var loc := Locate(b, userId, id);
    k := 0;
    if FindIn(Orders(b), id).Some? {
      DistinctFind(Orders(b), id);
    }
    if r.Ok? {
      k := CancelOrders(b, loc.value.order.id);
      RemoveDistinct(Orders(b), k);
      RemoveClients(Orders(b), k, b.clients);
      DeleteSideOk(b.bids, r.value.id, false);
      DeleteSideOk(b.asks, r.value.id, true);
      DeleteNotCrossed(b, r.value.id);
      CancelledSize(b, c, k);
    }
  }

  // Does this number name a live order of the user, as an exchange id or else as a client id?
  ghost predicate Cancellable(b: Book, userId: nat, id: nat) {
    if exists x :: x in Orders(b) && x.order.id == id
    then exists x :: x in Orders(b) && x.order.id == id && x.order.userId == userId
    else (userId, id) in b.clients
  }

  // A cancel order processed by the book goes by its id, or without one by its client id. It reports what
  // was left of the order it took out and makes no trade.
  lemma {:induction false} ProcessCancels(b: Book, o: Order, clientId: nat) returns (k: nat)
    requires Wf(b) && o.Kind() == OrderType.Cancel
    ensures var out, id := Process(b, o, clientId), if o.id != 0 then o.id else o.clientOrderId;
            && out.trades == []
            && (out.result.Ok? <==> Cancellable(b, o.userId, id))
            && (out.result.Ok? ==>
                  && k < |Orders(b)| && Orders(b)[k].order.userId == o.userId
                  && Orders(out.book) == Orders(b)[..k] + Orders(b)[k + 1..]
                  && out.result.value == ExecutionReport(0, Orders(b)[k].order.qty, false))
            && (out.result.Err? ==> out.book == b)
  {
    hide Wf, Flat, CancelOrder;
    var id := if o.id != 0 then o.id else o.clientOrderId;
    k := CancelIsExact(b, o.userId, id);
    var (c, r) := CancelOrder(b, o.userId, id);
    assert r.Err? ==> c == b;
  }

  // ----- Resting, then cancelling ------------------------------------------------------------------

  lemma {:induction false} FindInserted(q: seq<Resting>, k: nat, r: Resting)
    requires k <= |q| && FindIn(q, r.order.id).None?
    ensures FindIn(q[..k] + [r] + q[k..], r.order.id) == Some(r)
  {
    var t := q[..k] + [r] + q[k..];
    if k > 0 {
      assert t[1..] == q[1..][..k - 1] + [r] + q[1..][k - 1..];
      FindInserted(q[1..], k - 1, r);
    }
  }

  lemma PlaceFinds(levels: seq<Level>, r: Resting, isSell: bool)
    requires FindIn(Flat(levels), r.order.id).None?
    ensures FindIn(Flat(Place(levels, r, isSell)), r.order.id) == Some(r)
  {
    hide Place;
    var k := PlaceInserts(levels, r, isSell);
    FindInserted(Flat(levels), k, r);
  }

  lemma {:induction false} DeleteUndoesPlace(levels: seq<Level>, r: Resting, isSell: bool)
    requires SideOk(levels, isSell)
    requires FindIn(Flat(levels), r.order.id).None?
    ensures Delete(Place(levels, r, isSell), r.order.id) == levels
    decreases |levels|
  {
    hide SideOk;
    var id := r.order.id;
    assert FindIn([r], id) == Some(r) && DeleteFrom([r], id) == [];
    if levels != [] && !Better(isSell, r.order.price, levels[0].price) {
      var head, tail := levels[0], levels[1..];
      SideTail(levels, isSell);
      FindConcat(head.orders, Flat(tail), id);
      FindConcat(head.orders, [r], id);
      if head.price == r.order.price {
        assert head.orders + [] == head.orders;
      } else {
        DeleteUndoesPlace(tail, r, isSell);
        assert ([head] + Place(tail, r, isSell))[1..] == Place(tail, r, isSell);
      }
    }
  }

  lemma FindAbsent(q: seq<Resting>, id: nat)
    requires forall x :: x in q ==> x.order.id != id
    ensures FindIn(q, id).None?
  {
  }

  lemma RestThenCancel(b: Book, r: Resting)
    requires Wf(b) && Rest(b, r).1.Ok?
    requires forall x :: x in Orders(b) ==> x.order.id != r.order.id
    ensures CancelOrder(Rest(b, r).0, r.order.userId, r.order.id) ==
            (b.(clients := b.clients - {KeyOf(r)}), Ok(r.order))
  {
    hide Flat, Place, HasPrice, NotCrossed, DistinctIds, ClientsLive, SideOk, FindIn, Delete, DeleteFrom;
    var (c, _) := Rest(b, r);
    var id := r.order.id;
    FindAbsent(Orders(b), id);
    FindConcat(Flat(b.bids), Flat(b.asks), id);
    FindConcat(Flat(c.bids), Flat(c.asks), id);
    if r.order.IsSell() {
      DeleteUndoesPlace(b.asks, r, true);
      PlaceFinds(b.asks, r, true);
      DeleteFlat(c.bids, id);
    } else {
      DeleteUndoesPlace(b.bids, r, false);
      PlaceFinds(b.bids, r, false);
      DeleteFlat(c.asks, id);
    }
    assert b.clients[KeyOf(r) := id] - {KeyOf(r)} == b.clients - {KeyOf(r)};
  }

  lemma UntouchedSweep(o: Order, clientId: nat, levels: seq<Level>, clients: map<ClientKey, nat>, tid: nat)
    requires SideOk(levels, !o.IsSell()) && o.qty > 0
    requires var s := MatchSide(o, o.qty, clientId, levels, clients, tid); s.trades == [] && !s.stp
    ensures MatchSide(o, o.qty, clientId, levels, clients, tid) == Sweep(o.qty, levels, clients, [], false)
  {
    hide MatchSide, SideOk, Flat, Drain, Volume, Crosses, MakeTrade;
    SideQtys(levels, !o.IsSell());
    SweepIsWaterfall(o, o.qty, clientId, levels, clients, tid, !o.IsSell());
    SweepShrinks(o, o.qty, clientId, levels, clients, tid);
  }

  lemma SweepReports(b: Book, o: Order, clientId: nat)
    requires Submit(b, o, clientId).result.Ok?
    ensures var out, s := Submit(b, o, clientId), Swept(b, Stamp(b, o), clientId);
            out.trades == s.trades && out.result.value.stpTriggered == s.stp
  {
    hide MatchSide, Rest;
  }

  // A submission that is accepted without a trade or a stop is put to rest as it is.
  lemma RestsUntouched(b: Book, o: Order, clientId: nat)
    requires Wf(b) && FreshId(b, o) && o.Kind() == Limit && o.qty > 0
    requires var out := Submit(b, o, clientId); out.result.Ok? && out.trades == [] && !out.result.value.stpTriggered
    ensures var c := b.(orderSeq := StampedSeq(b, o));
            Rest(c, Resting(Stamp(b, o), clientId)).1.Ok? &&
            Submit(b, o, clientId).book == Rest(c, Resting(Stamp(b, o), clientId)).0
  {
    hide MatchSide, Rest, SideOk, NotCrossed, DistinctIds, ClientsLive, Flat;
    var stamped := Stamp(b, o);
    SweepReports(b, o, clientId);
    UntouchedSweep(stamped, clientId, if o.IsSell() then b.bids else b.asks, b.clients, b.tradeSeq);
    var c := b.(orderSeq := StampedSeq(b, o));
    assert AfterSweep(c, o.IsSell(), Swept(b, stamped, clientId)) == c;
    assert stamped.(qty := o.qty) == stamped;
  }

  lemma NewIdIsFresh(b: Book, o: Order)
    requires Wf(b) && FreshId(b, o)
    ensures forall x :: x in Orders(b) ==> x.order.id != Stamp(b, o).id
  {
  }

  // An order that rests without trading and is then cancelled by its exchange id leaves every order,
  // level and slot as it found them; the client entry it took over, if there was one, stays gone.
  lemma SubmitThenCancel(b: Book, o: Order, clientId: nat)
    requires Wf(b) && FreshId(b, o) && o.Kind() == Limit
    requires var out := Submit(b, o, clientId); out.result.Ok? && out.trades == [] && !out.result.value.stpTriggered
    requires o.qty > 0
    ensures CancelOrder(Submit(b, o, clientId).book, o.userId, Stamp(b, o).id)
         == (b.(orderSeq := StampedSeq(b, o), clients := b.clients - {(o.userId, o.clientOrderId)}), Ok(Stamp(b, o)))
  {
    hide Wf, Submit, Rest, Flat, CancelOrder;
    RestsUntouched(b, o, clientId);
    var c := b.(orderSeq := StampedSeq(b, o));
    SeqKeepsWf(b, StampedSeq(b, o));
    SameOrdersOf(b, c);
    NewIdIsFresh(b, o);
    RestThenCancel(c, Resting(Stamp(b, o), clientId));
  }
}
