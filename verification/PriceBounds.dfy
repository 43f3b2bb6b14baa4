/** What the price of an order means, in numbers: no trade is worse than it, nothing that is left on the other
    side would have been good enough, and only an own order within it stops the submission. */
module PriceBounds {
  import opened Types
  import opened Matcher
  import opened PriceTime
  import opened BookSafety
  import opened Exposure
  import opened Reports

  // The resting orders a submission can trade with.
  function OtherSide(b: Book, o: Order): seq<Resting> { Flat(if o.side == 1 then b.bids else b.asks) }

  // No sell goes for less than its price and no buy for more; a market order without a price takes any.
  lemma TradesKeepPrice(b: Book, o: Order, clientId: nat)
    requires Wf(b) && (o.Kind() == Limit || (o.Kind() == Market && o.price > 0))
    ensures forall t :: t in Submit(b, o, clientId).trades ==>
              if o.side == 1 then t.price >= o.price else t.price <= o.price
  {
    hide Wf, Flat, MatchSide, Rest;
    SidesOk(b);
    var p := Stamp(b, o);
    SweepTrades(p, clientId, if o.IsSell() then b.bids else b.asks, b.clients, b.tradeSeq, !o.IsSell());
  }

  lemma CrossesIs(o: Order, price: nat)
    requires o.Kind() == Limit || o.Kind() == Market
    ensures Crosses(o, price) <==>
            || (o.Kind() == Market && o.price == 0)
            || if o.side == 1 then price >= o.price else price <= o.price
  {
  }

  // Every order behind one that is out of bounds is out of bounds.
  lemma BeyondFirst(levels: seq<Level>, o: Order, isSell: bool)
    requires SideOk(levels, isSell) && isSell == !o.IsSell()
    requires levels != [] ==> !Crosses(o, levels[0].price)
    requires o.Kind() == Limit || o.Kind() == Market
    ensures forall x :: x in Flat(levels) ==>
              && (o.Kind() == Limit || o.price > 0)
              && if o.side == 1 then x.order.price < o.price else x.order.price > o.price
  {
    if levels != [] {
      BestFirst(levels, isSell);
    }
  }

  lemma OtherLevels(b: Book, o: Order, clientId: nat)
    ensures var s, c := Swept(b, Stamp(b, o), clientId), Submit(b, o, clientId).book;
            (if o.IsSell() then c.bids else c.asks) == s.levels
  {
    hide MatchSide, Place, HasPrice, OrderCount, LevelCount;
  }

  lemma LeftInReach(b: Book, o: Order, clientId: nat)
    requires var out := Submit(b, o, clientId);
             out.result.Err? || (!out.result.value.stpTriggered && out.result.value.remainingQty > 0)
    ensures var s := Swept(b, Stamp(b, o), clientId); s.left > 0 && !s.stp
  {
    hide MatchSide, Rest;
  }

  // If an order is refused, or something is left of it that nothing stopped, every order still on the other
  // side is worse than its price; against a market order without a price there is none left.
  lemma NothingMissed(b: Book, o: Order, clientId: nat)
    requires Wf(b) && FreshId(b, o) && (o.Kind() == Limit || o.Kind() == Market)
    requires var out := Submit(b, o, clientId);
             out.result.Err? || (!out.result.value.stpTriggered && out.result.value.remainingQty > 0)
    ensures forall x :: x in OtherSide(Submit(b, o, clientId).book, o) ==>
              if o.side == 1 then x.order.price < o.price else x.order.price > o.price
    ensures o.Kind() == Market && o.price == 0 ==> OtherSide(Submit(b, o, clientId).book, o) == []
  {
    hide Wf, Flat, MatchSide, Submit, Crosses;
    OtherLevels(b, o, clientId);
    LeftInReach(b, o, clientId);
    SubmitKeepsWf(b, o, clientId);
    var p, c := Stamp(b, o), Submit(b, o, clientId).book;
    SidesOk(c);
    BeyondFirst(if o.IsSell() then c.bids else c.asks, p, !o.IsSell());
    var q := OtherSide(c, o);
    if q != [] { assert q[0] in q; }
  }

  // A submission is stopped exactly when something is left of it and the first order left on the other side
  // is its owner's and within its price.
  lemma StoppedExactlyWhen(b: Book, o: Order, clientId: nat)
    requires Wf(b) && FreshId(b, o) && (o.Kind() == Limit || o.Kind() == Market)
    requires Submit(b, o, clientId).result.Ok?
    ensures var out := Submit(b, o, clientId);
            var q := OtherSide(out.book, o);
            out.result.value.stpTriggered <==>
              && out.result.value.remainingQty > 0 && q != [] && q[0].order.userId == o.userId
              && (|| (o.Kind() == Market && o.price == 0)
                  || if o.side == 1 then q[0].order.price >= o.price else q[0].order.price <= o.price)
  {
    hide SideOk, NotCrossed, DistinctIds, ClientsLive, Flat, Submit, Drain, BehindEquals, Volume, Crosses;
    var k := SubmissionIsExact(b, o, clientId);
    var out, p, q := Submit(b, o, clientId), Stamp(b, o), OtherSide(b, o);
    var n := Eligible(p, q);
    FlatQtys(b);
    if out.result.value.remainingQty > 0 {
      DrainAll(q[..n], o.qty);
      assert [] + q[n..] == q[n..];
      if n < |q| { CrossesIs(p, q[n].order.price); }
    }
  }
}
