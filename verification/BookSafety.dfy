/** The book after a submission or a cancel: well formed, never crossed, and unchanged on refusal. */
module BookSafety {
  import opened Types
  import opened Matcher
  import opened BookLaws

  // ----- The book after a sweep -------------------------------------------------------------------

  lemma SideDistinct(b: Book)
    requires Wf(b)
    ensures DistinctIds(Flat(b.bids)) && DistinctIds(Flat(b.asks)) && DisjointIds(Flat(b.bids), Flat(b.asks))
  {
    DistinctConcat(Flat(b.bids), Flat(b.asks));
  }

  lemma SideQtys(levels: seq<Level>, isSell: bool)
    requires SideOk(levels, isSell)
    ensures forall i :: 0 <= i < |levels| ==>
            levels[i].orders != [] && forall r :: r in levels[i].orders ==> r.order.qty > 0
  {
  }

  lemma IdsBelow(rest: seq<Resting>, q: seq<Resting>, bound: nat)
    requires SuffixOf(rest, q) && forall r :: r in q ==> r.order.id < bound
    ensures forall r :: r in rest ==> r.order.id < bound
  {
    forall i | 0 <= i < |rest| ensures rest[i].order.id < bound { SuffixAt(rest, q, i); }
  }

  lemma SuffixNotCrossed(bids: seq<Level>, asks: seq<Level>, b: seq<Level>, a: seq<Level>)
    requires NotCrossed(bids, asks) && LevelSuffix(b, bids) && LevelSuffix(a, asks)
    ensures NotCrossed(b, a)
  {
    forall i, j | 0 <= i < |b| && 0 <= j < |a| ensures b[i].price < a[j].price {
      assert b[i].price == bids[|bids| - |b| + i].price;
      assert a[j].price == asks[|asks| - |a| + j].price;
    }
  }

  lemma SweepSuffixes(b: Book, o: Order, clientId: nat)
    requires SideOk(b.bids, false) && SideOk(b.asks, true)
    ensures var c := AfterSweep(b, o.IsSell(), Swept(b, o, clientId));
            && LevelSuffix(c.bids, b.bids) && LevelSuffix(c.asks, b.asks)
            && SuffixOf(Flat(c.bids), Flat(b.bids)) && SuffixOf(Flat(c.asks), Flat(b.asks))
  {
    hide MatchSide, LevelSuffix, SuffixOf, Keys;
    SideQtys(b.bids, false);
    SideQtys(b.asks, true);
    SuffixSelf(b.bids);
    SuffixSelf(b.asks);
    SweepSuffix(o, o.qty, clientId, if o.IsSell() then b.bids else b.asks, b.clients, b.tradeSeq);
  }

  // Matching keeps every part of well-formedness.
  lemma SweepKeepsWf(b: Book, o: Order, clientId: nat)
    requires Wf(b)
    ensures Wf(AfterSweep(b, o.IsSell(), Swept(b, o, clientId)))
  {
    hide MatchSide, LevelSuffix, SuffixOf, DisjointIds, DistinctIds, SideOk, NotCrossed, ClientsLive, Keys;
    var c := AfterSweep(b, o.IsSell(), Swept(b, o, clientId));
    SweepSuffixes(b, o, clientId);
    SuffixSideOk(c.bids, b.bids, false);
    SuffixSideOk(c.asks, b.asks, true);
    SuffixNotCrossed(b.bids, b.asks, c.bids, c.asks);
    SweepKeepsIds(b, c);
    SweepKeepsClients(b, o, clientId);
    LevelSuffixShorter(c.bids, b.bids);
    LevelSuffixShorter(c.asks, b.asks);
    SuffixShorter(Flat(c.bids), Flat(b.bids));
    SuffixShorter(Flat(c.asks), Flat(b.asks));
  }

  lemma SuffixShorter(rest: seq<Resting>, q: seq<Resting>)
    requires SuffixOf(rest, q)
    ensures |rest| <= |q|
  {
  }

  lemma LevelSuffixShorter(rest: seq<Level>, levels: seq<Level>)
    requires LevelSuffix(rest, levels)
    ensures |rest| <= |levels|
  {
  }

  lemma SweepKeepsIds(b: Book, c: Book)
    requires SuffixOf(Flat(c.bids), Flat(b.bids)) && SuffixOf(Flat(c.asks), Flat(b.asks))
    requires Wf(b)
    ensures DistinctIds(Orders(c))
    ensures forall r :: r in Orders(c) ==> r.order.id < b.orderSeq
  {
    SideDistinct(b);
    assert forall r :: r in Flat(b.bids) || r in Flat(b.asks) ==> r in Orders(b);
    IdsBelow(Flat(c.bids), Flat(b.bids), b.orderSeq);
    IdsBelow(Flat(c.asks), Flat(b.asks), b.orderSeq);
    SuffixDistinct(Flat(c.bids), Flat(b.bids));
    SuffixDistinct(Flat(c.asks), Flat(b.asks));
    SuffixDisjoint(Flat(c.bids), Flat(b.bids), Flat(b.asks));
    SuffixDisjoint(Flat(c.asks), Flat(b.asks), Flat(c.bids));
    DistinctConcat(Flat(c.bids), Flat(c.asks));
  }

  lemma SweepKeepsClients(b: Book, o: Order, clientId: nat)
    requires Wf(b)
    ensures var c := AfterSweep(b, o.IsSell(), Swept(b, o, clientId));
            ClientsLive(Orders(c), c.clients)
  {
    hide MatchSide;
    SideQtys(b.bids, false);
    SideQtys(b.asks, true);
    var s := Swept(b, o, clientId);
    if o.IsSell() {
      SweepSuffix(o, o.qty, clientId, b.bids, b.clients, b.tradeSeq);
      SuffixClients(Flat(s.levels), Flat(b.bids), Flat(b.asks), b.clients);
    } else {
      SweepSuffix(o, o.qty, clientId, b.asks, b.clients, b.tradeSeq);
      ClientsLiveSwap(Flat(b.bids), Flat(b.asks), b.clients);
      SuffixClients(Flat(s.levels), Flat(b.asks), Flat(b.bids), b.clients);
      ClientsLiveSwap(Flat(s.levels), Flat(b.bids), s.clients);
    }
  }

  // ----- Resting an order -------------------------------------------------------------------------

  lemma FlatCons(l: Level, rest: seq<Level>)
    ensures Flat([l] + rest) == l.orders + Flat(rest)
  {
    assert ([l] + rest)[1..] == rest;
  }

  // Inserting into the second or the first of two parts inserts into the whole.
  lemma SplitAt(a: seq<Resting>, t: seq<Resting>, k: nat, r: Resting)
    requires k <= |t|
    ensures a + (t[..k] + [r] + t[k..]) == (a + t)[..|a| + k] + [r] + (a + t)[|a| + k..]
  {
  }

  lemma SplitBefore(a: seq<Resting>, t: seq<Resting>, k: nat, r: Resting)
    requires k <= |a|
    ensures (a[..k] + [r] + a[k..]) + t == (a + t)[..k] + [r] + (a + t)[k..]
  {
  }

  // Placing an order inserts it somewhere in the priority order and disturbs nothing else.
  lemma {:induction false} PlaceInserts(levels: seq<Level>, r: Resting, isSell: bool) returns (k: nat)
    ensures k <= |Flat(levels)|
    ensures Flat(Place(levels, r, isSell)) == Flat(levels)[..k] + [r] + Flat(levels)[k..]
    decreases |levels|
  {
    hide Better, Flat;
    if levels == [] || Better(isSell, r.order.price, levels[0].price) {
      k := 0;
      FlatCons(Level(r.order.price, [r]), levels);
      SplitAt([], Flat(levels), 0, r);
      assert [] + Flat(levels) == Flat(levels);
    } else {
      var head, tail := levels[0], levels[1..];
      assert levels == [head] + tail;
      FlatCons(head, tail);
      if head.price == r.order.price {
        k := 0;
        FlatCons(head.(orders := head.orders + [r]), tail);
      } else {
        k := PlaceInserts(tail, r, isSell);
        FlatCons(head, Place(tail, r, isSell));
      }
      SplitAt(head.orders, Flat(tail), k, r);
      k := k + |head.orders|;
    }
  }

  ghost predicate Sorted(levels: seq<Level>, isSell: bool) {
    forall i, j :: 0 <= i < j < |levels| ==> Better(isSell, levels[i].price, levels[j].price)
  }

  lemma HasPriceTail(levels: seq<Level>, p: nat)
    requires levels != []
    ensures HasPrice(levels, p) <==> levels[0].price == p || HasPrice(levels[1..], p)
  {
    if HasPrice(levels[1..], p) {
      var i :| 0 <= i < |levels[1..]| && levels[1..][i].price == p;
      assert levels[i + 1].price == p;
    }
    if HasPrice(levels, p) && levels[0].price != p {
      var i :| 0 <= i < |levels| && levels[i].price == p;
      assert levels[1..][i - 1].price == p;
    }
  }

  // A level is opened exactly when the price is new.
  lemma {:induction false} PlacePrices(levels: seq<Level>, r: Resting, isSell: bool)
    requires Sorted(levels, isSell)
    ensures var placed := Place(levels, r, isSell);
            && (forall p :: HasPrice(placed, p) <==> p == r.order.price || HasPrice(levels, p))
            && |placed| == |levels| + (if HasPrice(levels, r.order.price) then 0 else 1)
    decreases |levels|
  {
    hide HasPrice;
    var placed := Place(levels, r, isSell);
    NoPrice();
    forall p ensures levels != [] ==> (HasPrice(levels, p) <==> levels[0].price == p || HasPrice(levels[1..], p)) {
      if levels != [] { HasPriceTail(levels, p); }
    }
    forall p ensures HasPrice(placed, p) <==> placed[0].price == p || HasPrice(placed[1..], p) {
      HasPriceTail(placed, p);
    }
    if levels == [] || Better(isSell, r.order.price, levels[0].price) {
      assert placed[1..] == levels;
      if HasPrice(levels, r.order.price) { SortedHead(levels, r.order.price, isSell); }
    } else if levels[0].price == r.order.price {
      assert placed[1..] == levels[1..];
    } else {
      assert placed[1..] == Place(levels[1..], r, isSell);
      PlacePrices(levels[1..], r, isSell);
    }
  }

  lemma NoPrice()
    ensures forall p :: !HasPrice([], p)
  {
  }

  lemma SortedHead(levels: seq<Level>, p: nat, isSell: bool)
    requires Sorted(levels, isSell) && HasPrice(levels, p)
    ensures levels != [] && !Better(isSell, p, levels[0].price)
  {
  }

  lemma SideCons(l: Level, rest: seq<Level>, isSell: bool)
    requires l.orders != [] && QueueOk(l.orders, l.price, isSell)
    requires SideOk(rest, isSell)
    requires forall p :: HasPrice(rest, p) ==> Better(isSell, l.price, p)
    ensures SideOk([l] + rest, isSell)
  {
    forall j | 0 <= j < |rest| ensures Better(isSell, l.price, rest[j].price) {
      assert HasPrice(rest, rest[j].price);
    }
  }

  lemma SideTail(levels: seq<Level>, isSell: bool)
    requires SideOk(levels, isSell) && levels != []
    ensures levels[0].orders != [] && QueueOk(levels[0].orders, levels[0].price, isSell)
    ensures SideOk(levels[1..], isSell) && Sorted(levels, isSell)
    ensures forall p :: HasPrice(levels[1..], p) ==> Better(isSell, levels[0].price, p)
  {
  }

  // Nothing on a side is better than its best level.
  lemma {:induction false} BestFirst(levels: seq<Level>, isSell: bool)
    requires SideOk(levels, isSell) && levels != []
    ensures forall r :: r in Flat(levels) ==> !Better(isSell, r.order.price, levels[0].price)
  {
    if |levels| > 1 {
      SideTail(levels, isSell);
      BestFirst(levels[1..], isSell);
      assert Better(isSell, levels[0].price, levels[1].price);
    }
  }

  lemma QueueOkPush(q: seq<Resting>, r: Resting, isSell: bool)
    requires QueueOk(q, r.order.price, isSell)
    requires r.order.qty > 0 && r.order.IsSell() == isSell && r.order.Kind() == Limit
    ensures QueueOk(q + [r], r.order.price, isSell)
  {
  }

  lemma {:induction false} PlaceSideOk(levels: seq<Level>, r: Resting, isSell: bool)
    requires SideOk(levels, isSell)
    requires r.order.qty > 0 && r.order.IsSell() == isSell && r.order.Kind() == Limit
    ensures SideOk(Place(levels, r, isSell), isSell)
    decreases |levels|
  {
    hide SideOk, QueueOk, HasPrice, Sorted;
    NoPrice();
    if levels == [] {
      SideOkEmpty(isSell);
      QueueOkEmpty(r, isSell);
      SideCons(Level(r.order.price, [r]), [], isSell);
    } else {
      SideTail(levels, isSell);
      var head, tail := levels[0], levels[1..];
      forall p ensures HasPrice(levels, p) <==> head.price == p || HasPrice(tail, p) { HasPriceTail(levels, p); }
      if Better(isSell, r.order.price, head.price) {
        QueueOkEmpty(r, isSell);
        SideCons(Level(r.order.price, [r]), levels, isSell);
      } else if head.price == r.order.price {
        QueueOkPush(head.orders, r, isSell);
        SideCons(head.(orders := head.orders + [r]), tail, isSell);
      } else {
        PlaceSideOk(tail, r, isSell);
        assert Sorted(tail, isSell) by { SideOkSorted(tail, isSell); }
        PlacePrices(tail, r, isSell);
        SideCons(head, Place(tail, r, isSell), isSell);
      }
    }
  }

  lemma SideOkEmpty(isSell: bool)
    ensures SideOk([], isSell)
  {
  }

  lemma QueueOkEmpty(r: Resting, isSell: bool)
    requires r.order.qty > 0 && r.order.IsSell() == isSell && r.order.Kind() == Limit
    ensures QueueOk([r], r.order.price, isSell)
  {
  }

  lemma SideOkSorted(levels: seq<Level>, isSell: bool)
    requires SideOk(levels, isSell)
    ensures Sorted(levels, isSell)
  {
  }

  // A price that no order on the other side reaches.
  ghost predicate Clear(b: Book, price: nat, isSell: bool) {
    if isSell then forall i :: 0 <= i < |b.bids| ==> b.bids[i].price < price
    else forall j :: 0 <= j < |b.asks| ==> price < b.asks[j].price
  }

  lemma PlaceNotCrossed(b: Book, r: Resting)
    requires Wf(b) && Clear(b, r.order.price, r.order.IsSell())
    ensures if r.order.IsSell() then NotCrossed(b.bids, Place(b.asks, r, true))
            else NotCrossed(Place(b.bids, r, false), b.asks)
  {
    hide DistinctIds, ClientsLive, Flat, QueueOk;
    var levels := if r.order.IsSell() then b.asks else b.bids;
    PlacePrices(levels, r, r.order.IsSell());
    var placed := Place(levels, r, r.order.IsSell());
    forall i | 0 <= i < |placed|
      ensures placed[i].price == r.order.price || exists k :: 0 <= k < |levels| && levels[k].price == placed[i].price
    {
      assert HasPrice(placed, placed[i].price);
    }
  }

  lemma InsertDistinct(q: seq<Resting>, k: nat, r: Resting)
    requires k <= |q| && DistinctIds(q) && forall x :: x in q ==> x.order.id != r.order.id
    ensures DistinctIds(q[..k] + [r] + q[k..])
  {
    var t := q[..k] + [r] + q[k..];
    forall i, j | 0 <= i < j < |t| ensures t[i].order.id != t[j].order.id {
      assert t[i] == if i < k then q[i] else if i == k then r else q[i - 1];
      assert t[j] == if j < k then q[j] else if j == k then r else q[j - 1];
    }
  }

  lemma InsertClients(q: seq<Resting>, k: nat, r: Resting, clients: map<ClientKey, nat>)
    requires k <= |q| && ClientsLive(q, clients)
    ensures ClientsLive(q[..k] + [r] + q[k..], clients[KeyOf(r) := r.order.id])
  {
    var t := q[..k] + [r] + q[k..];
    assert t[k] == r;
    assert q == q[..k] + q[k..];
    forall key | key in clients && key != KeyOf(r)
      ensures exists x :: x in t && x.order.id == clients[key] && KeyOf(x) == key
    {
      var x :| x in q && x.order.id == clients[key] && KeyOf(x) == key;
      assert x in t;
    }
  }

  // The orders of a book with one more resting order.
  lemma RestInserts(b: Book, r: Resting) returns (k: nat)
    requires Rest(b, r).1.Ok?
    ensures k <= |Orders(b)| && Orders(Rest(b, r).0) == Orders(b)[..k] + [r] + Orders(b)[k..]
  {
    hide Flat, Place, HasPrice;
    if r.order.IsSell() {
      k := PlaceInserts(b.asks, r, true);
      var a, t := Flat(b.bids), Flat(b.asks);
      SplitAt(a, t, k, r);
      k := k + |a|;
    } else {
      k := PlaceInserts(b.bids, r, false);
      SplitBefore(Flat(b.bids), Flat(b.asks), k, r);
    }
  }

  lemma RestKeepsWf(b: Book, r: Resting)
    requires Wf(b) && Clear(b, r.order.price, r.order.IsSell())
    requires r.order.qty > 0 && r.order.Kind() == Limit
    requires r.order.id < b.orderSeq && forall x :: x in Orders(b) ==> x.order.id != r.order.id
    ensures Wf(Rest(b, r).0)
  {
    hide Flat, Place, HasPrice, SideOk, NotCrossed, DistinctIds, ClientsLive, Clear;
    var (c, res) := Rest(b, r);
    if res.Ok? {
      var k := RestInserts(b, r);
      InsertDistinct(Orders(b), k, r);
      InsertClients(Orders(b), k, r, b.clients);
      PlaceNotCrossed(b, r);
      SideOkSorted(b.asks, true);
      SideOkSorted(b.bids, false);
      if r.order.IsSell() {
        PlaceSideOk(b.asks, r, true);
        PlacePrices(b.asks, r, true);
      } else {
        PlaceSideOk(b.bids, r, false);
        PlacePrices(b.bids, r, false);
      }
      assert OrderCount(c) == |Orders(c)| == OrderCount(b) + 1;
    }
  }

  // ----- Submitting -------------------------------------------------------------------------------

  // A remainder that may rest lies strictly outside the other side.
  lemma SweepClears(b: Book, o: Order, clientId: nat)
    requires Wf(b) && o.Kind() == Limit
    requires var s := Swept(b, o, clientId); s.left > 0 && !s.stp
    ensures Clear(AfterSweep(b, o.IsSell(), Swept(b, o, clientId)), o.price, o.IsSell())
  {
    hide MatchSide, DistinctIds, ClientsLive, Flat;
    SweepKeepsWf(b, o, clientId);
  }

  lemma SeqKeepsWf(b: Book, n: nat)
    requires Wf(b) && n >= b.orderSeq
    ensures Wf(b.(orderSeq := n))
  {
  }

  lemma SameIds(b: Book, o: Order, clientId: nat, id: nat)
    requires Wf(b) && forall r :: r in Orders(b) ==> r.order.id != id
    ensures forall r :: r in Orders(AfterSweep(b, o.IsSell(), Swept(b, o, clientId))) ==> r.order.id != id
  {
    hide MatchSide, DistinctIds, ClientsLive, SuffixOf, LevelSuffix;
    SweepSuffixes(b, o, clientId);
    var c := AfterSweep(b, o.IsSell(), Swept(b, o, clientId));
    assert forall r :: r in Flat(b.bids) || r in Flat(b.asks) ==> r in Orders(b);
    IdsAvoid(Flat(c.bids), Flat(b.bids), id);
    IdsAvoid(Flat(c.asks), Flat(b.asks), id);
  }

  lemma IdsAvoid(rest: seq<Resting>, q: seq<Resting>, id: nat)
    requires SuffixOf(rest, q) && forall r :: r in q ==> r.order.id != id
    ensures forall r :: r in rest ==> r.order.id != id
  {
    forall i | 0 <= i < |rest| ensures rest[i].order.id != id { SuffixAt(rest, q, i); }
  }

  lemma SubmitKeepsWf(b: Book, o: Order, clientId: nat)
    requires Wf(b) && FreshId(b, o)
    ensures Wf(Submit(b, o, clientId).book)
  {
    hide MatchSide, Rest, Orders, SideOk, NotCrossed, DistinctIds, ClientsLive, OrderCount, LevelCount, Crosses;
    var stamped := Stamp(b, o);
    var s := Swept(b, stamped, clientId);
    var b0 := b.(orderSeq := StampedSeq(b, o));
    SeqKeepsWf(b, StampedSeq(b, o));
    assert Swept(b0, stamped, clientId) == s;
    SweepKeepsWf(b0, stamped, clientId);
    if !s.stp && s.left > 0 && o.Kind() == Limit {
      SweepClears(b0, stamped, clientId);
      assert forall r :: r in Orders(b0) ==> r.order.id != stamped.id by { SameOrdersOf(b, b0); }
      SameIds(b0, stamped, clientId, stamped.id);
      RestKeepsWf(AfterSweep(b0, o.IsSell(), s), Resting(stamped.(qty := s.left), clientId));
    }
  }

  lemma SameOrdersOf(b: Book, c: Book)
    requires b.bids == c.bids && b.asks == c.asks
    ensures Orders(b) == Orders(c) && OrderCount(b) == OrderCount(c) && LevelCount(b) == LevelCount(c)
  {
  }
}
