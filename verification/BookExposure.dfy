/** How one submission or cancel moves the exposure of every user in one book. */
module BookExposure {
  import opened Types
  import opened Matcher
  import opened PriceTime
  import opened BookLaws
  import opened BookSafety
  import opened BookEffects
  import opened Risk
  import opened Ledger
  import opened Exposure
  import opened Exchange
  import opened Margin

  // A submission with its own id whose margin is locked.
  ghost predicate Ready(b: Book, i: nat, accounts: Accounts, o: Order) {
    && Wf(b) && Accepted(b, i, accounts) && FreshId(b, o)
    && o.id != 0 && o.side < 2 && (o.Kind() == Limit || o.Kind() == Market)
    && o.symbolId == i < NUM_SYMBOLS && o.userId in accounts && o.qty > 0
    && (o.side == 0 ==> o.price > 0 && o.price * o.qty <= U64_MAX)
  }

  lemma SweptTradesOk(b: Book, i: nat, accounts: Accounts, o: Order, clientId: nat)
    requires Ready(b, i, accounts, o)
    ensures TradesOk(Swept(b, o, clientId).trades, o, accounts)
  {
    hide MatchSide, Flat, NotCrossed, DistinctIds, ClientsLive, SideOk;
    var levels := if o.IsSell() then b.bids else b.asks;
    SweepTrades(o, clientId, levels, b.clients, b.tradeSeq, !o.IsSell());
    forall t | t in Swept(b, o, clientId).trades ensures TradeOk(t, o, accounts) {
      var m :| m in Flat(levels) && MadeBy(t, m);
      if o.side == 1 { MulMono(t.price, m.order.price, t.qty, m.order.qty); }
    }
  }

  // What the makers trade away is what their exposure loses.
  lemma SweptExposure(b: Book, i: nat, accounts: Accounts, o: Order, clientId: nat, u: nat)
    requires Ready(b, i, accounts, o)
    ensures var s := Swept(b, o, clientId);
            var c := AfterSweep(b, o.IsSell(), s);
            if o.side == 0 then
              Amount(Flat(b.asks), u) == Amount(Flat(c.asks), u) + Over(s.trades, MakerQtyOf(u)) && c.bids == b.bids
            else
              Value(Flat(b.bids), u) == Value(Flat(c.bids), u) + Over(s.trades, MakerUsdOf(u)) && c.asks == b.asks
  {
    hide MatchSide, Flat, NotCrossed, DistinctIds, ClientsLive, SideOk, Value, Amount, Over;
    SweepExposure(o, clientId, if o.IsSell() then b.bids else b.asks, b.clients, b.tradeSeq, !o.IsSell(), u);
  }

  lemma SweptQuantity(b: Book, i: nat, accounts: Accounts, o: Order, clientId: nat)
    requires Ready(b, i, accounts, o)
    ensures var s := Swept(b, o, clientId); Traded(s.trades) + s.left == o.qty
  {
    hide MatchSide, Flat, NotCrossed, DistinctIds, ClientsLive, SideOk, Drain;
    SweepIsWaterfall(o, o.qty, clientId, if o.IsSell() then b.bids else b.asks, b.clients, b.tradeSeq, !o.IsSell());
  }

  // Resting an order adds its exposure to its own side.
  lemma RestExposure(b: Book, r: Resting, u: nat)
    requires Rest(b, r).1.Ok?
    ensures var c := Rest(b, r).0;
            if r.order.IsSell() then
              Amount(Flat(c.asks), u) == Amount(Flat(b.asks), u) + Amount([r], u) && c.bids == b.bids
            else
              Value(Flat(c.bids), u) == Value(Flat(b.bids), u) + Value([r], u) && c.asks == b.asks
  {
    hide Place, Flat, Value, Amount, HasPrice;
    if r.order.IsSell() {
      var k := PlaceInserts(b.asks, r, true);
      ExposureInsert(Flat(b.asks), k, r, u);
    } else {
      var k := PlaceInserts(b.bids, r, false);
      ExposureInsert(Flat(b.bids), k, r, u);
    }
  }

  // A successful submission moves maker exposure by its trades and adds the taker's remainder.
  lemma SubmitExposure(b: Book, i: nat, accounts: Accounts, o: Order, clientId: nat, u: nat)
    requires Ready(b, i, accounts, o) && Submit(b, o, clientId).result.Ok?
    ensures var out := Submit(b, o, clientId);
            var kept := if u == o.userId then Kept(o, out.result.value) else 0;
            if o.side == 0 then
              && Amount(Flat(b.asks), u) == Amount(Flat(out.book.asks), u) + Over(out.trades, MakerQtyOf(u))
              && Value(Flat(out.book.bids), u) == Value(Flat(b.bids), u) + o.price * kept
            else
              && Value(Flat(b.bids), u) == Value(Flat(out.book.bids), u) + Over(out.trades, MakerUsdOf(u))
              && Amount(Flat(out.book.asks), u) == Amount(Flat(b.asks), u) + kept
  {
    hide MatchSide, Flat, Wf, Value, Amount, Over, Rest;
    SweptExposure(b, i, accounts, o, clientId, u);
    var s := Swept(b, o, clientId);
    var c := AfterSweep(b.(orderSeq := StampedSeq(b, o)), o.IsSell(), s);
    if !s.stp && s.left > 0 && o.Kind() == Limit {
      var r := Resting(o.(qty := s.left), clientId);
      RestExposure(c, r, u);
      ExposureOne(r, u);
    }
  }

  // Every order of the new book was accepted.
  lemma SubmitAccepted(b: Book, i: nat, accounts: Accounts, o: Order, clientId: nat)
    requires Ready(b, i, accounts, o)
    ensures Accepted(Submit(b, o, clientId).book, i, accounts)
  {
    hide MatchSide, Flat, NotCrossed, DistinctIds, ClientsLive, LevelSuffix, SuffixOf, Rest, SideOk;
    var s := Swept(b, o, clientId);
    var b0 := b.(orderSeq := StampedSeq(b, o));
    SweepSuffixes(b0, o, clientId);
    var c := AfterSweep(b0, o.IsSell(), s);
    SuffixAccepted(Flat(c.bids), Flat(b.bids), i, accounts, true);
    SuffixAccepted(Flat(c.asks), Flat(b.asks), i, accounts, false);
    if !s.stp && s.left > 0 && o.Kind() == Limit {
      RestAccepted(c, Resting(o.(qty := s.left), clientId), i, accounts) by {
        MulMono(o.price, o.price, s.left, o.qty);
      }
    }
  }

  ghost predicate AcceptedIn(q: seq<Resting>, i: nat, accounts: Accounts, bids: bool) {
    forall r :: r in q ==>
      (r.order.symbolId == i && r.order.userId in accounts
          && (bids ==> r.order.price > 0 && r.order.price * r.order.qty <= U64_MAX))
  }

  lemma SuffixAccepted(rest: seq<Resting>, q: seq<Resting>, i: nat, accounts: Accounts, bids: bool)
    requires SuffixOf(rest, q) && AcceptedIn(q, i, accounts, bids)
    ensures AcceptedIn(rest, i, accounts, bids)
  {
    forall k | 0 <= k < |rest|
      ensures rest[k].order.symbolId == i && rest[k].order.userId in accounts
           && (bids ==> rest[k].order.price > 0 && rest[k].order.price * rest[k].order.qty <= U64_MAX)
    {
      SuffixAt(rest, q, k);
      var r := q[|q| - |rest| + k];
      assert r in q;
      MulMono(r.order.price, r.order.price, rest[k].order.qty, r.order.qty);
    }
  }

  lemma RestAccepted(b: Book, r: Resting, i: nat, accounts: Accounts)
    requires Accepted(b, i, accounts)
    requires r.order.symbolId == i && r.order.userId in accounts
    requires !r.order.IsSell() ==> r.order.price > 0 && r.order.price * r.order.qty <= U64_MAX
    ensures Accepted(Rest(b, r).0, i, accounts)
  {
    hide Place, Flat, HasPrice;
    if r.order.IsSell() { var k := PlaceInserts(b.asks, r, true); } else { var k := PlaceInserts(b.bids, r, false); }
  }

  // ----- Cancels ----------------------------------------------------------------------------------

  lemma DeleteExposure(levels: seq<Level>, id: nat, u: nat)
    ensures var q := Flat(levels);
            match FindIn(q, id)
            case Some(r) =>
              && Value(Flat(Delete(levels, id)), u) + Value([r], u) == Value(q, u)
              && Amount(Flat(Delete(levels, id)), u) + Amount([r], u) == Amount(q, u)
            case None => Delete(levels, id) == levels
    ensures forall r :: r in Flat(Delete(levels, id)) ==> r in Flat(levels)
  {
    hide Flat, Delete, Value, Amount;
    DeleteFlat(levels, id);
    var q := Flat(levels);
    if FindIn(q, id).Some? {
      var k := DeletesAt(q, id);
      ExposureRemove(q, k, u);
    } else {
      DeletesNothing(q, id);
    }
  }

  // A cancel takes the cancelled order's exposure, and nothing else.
  lemma CancelExposure(b: Book, userId: nat, id: nat, u: nat)
    requires Wf(b) && CancelOrder(b, userId, id).1.Ok?
    ensures var (c, res) := CancelOrder(b, userId, id);
            var o := res.value;
            && o.userId == userId
            && (if o.IsSell() then (exists r :: r in Flat(b.asks) && r.order == o)
                 else (exists r :: r in Flat(b.bids) && r.order == o))
            && Value(Flat(b.bids), u) ==
                 Value(Flat(c.bids), u) + (if !o.IsSell() && u == userId then o.price * o.qty else 0)
            && Amount(Flat(b.asks), u) == Amount(Flat(c.asks), u) + (if o.IsSell() && u == userId then o.qty else 0)
            && (forall r :: r in Flat(c.bids) ==> r in Flat(b.bids))
            && (forall r :: r in Flat(c.asks) ==> r in Flat(b.asks))
  {
    hide Delete, Value, Amount, NotCrossed, ClientsLive, DistinctIds, SideOk, Flat, FindIn;
    var loc := Locate(b, userId, id).value;
    var cid := loc.order.id;
    FlatOk(b.bids, false);
    FlatOk(b.asks, true);
    SideDistinct(b);
    FindConcat(Flat(b.bids), Flat(b.asks), cid);
    DeleteExposure(b.bids, cid, u);
    DeleteExposure(b.asks, cid, u);
    ExposureOne(loc, u);
    assert FindIn(Orders(b), cid).Some? by { FindPresent(Orders(b), loc); }
    DistinctFind(Orders(b), cid);
    if FindIn(Flat(b.bids), cid).Some? { DisjointFind(Flat(b.bids), Flat(b.asks), cid); }
  }
}
