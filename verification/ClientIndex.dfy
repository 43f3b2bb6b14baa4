/** The client index of one book: every live order has its own entry exactly while no order comes to rest
    under the client id of another live one. */
module ClientIndex {
  import opened Types
  import opened Matcher
  import opened PriceTime
  import opened BookLaws
  import opened BookSafety
  import opened BookEffects
  import opened Reports

  // Every live order has its own client entry.
  ghost predicate Complete(q: seq<Resting>, clients: map<ClientKey, nat>) {
    forall r :: r in q ==> KeyOf(r) in clients && clients[KeyOf(r)] == r.order.id
  }

  lemma CompleteKeys(q: seq<Resting>, clients: map<ClientKey, nat>)
    requires Complete(q, clients) && DistinctIds(q)
    ensures forall i, j :: 0 <= i < j < |q| ==> KeyOf(q[i]) != KeyOf(q[j])
  {
    forall i, j | 0 <= i < j < |q| ensures KeyOf(q[i]) != KeyOf(q[j]) {
      assert q[i] in q && q[j] in q;
    }
  }

  lemma SuffixComplete(rest: seq<Resting>, q: seq<Resting>, t: seq<Resting>, clients: map<ClientKey, nat>)
    requires SuffixOf(rest, q) && Complete(q + t, clients) && DistinctIds(q + t)
    ensures Complete(rest + t, clients - Keys(Consumed(q, rest)))
  {
    CompleteKeys(q + t, clients);
    var d := |q| - |rest|;
    forall i | 0 <= i < |rest| + |t|
      ensures var r := (rest + t)[i];
              KeyOf(r) in clients && clients[KeyOf(r)] == r.order.id && KeyOf(r) !in Keys(Consumed(q, rest))
    {
      var r := (rest + t)[i];
      if i < |rest| { SuffixAt(rest, q, i); }
      assert KeyOf(r) == KeyOf((q + t)[d + i]) && r.order.id == (q + t)[d + i].order.id;
      assert (q + t)[d + i] in q + t;
      forall k | 0 <= k < d ensures KeyOf(q[k]) != KeyOf(r) { assert (q + t)[k] == q[k]; }
    }
  }

  lemma CompleteSwap(a: seq<Resting>, b: seq<Resting>, clients: map<ClientKey, nat>)
    requires Complete(a + b, clients)
    ensures Complete(b + a, clients)
  {
  }

  lemma SweepKeepsComplete(b: Book, o: Order, clientId: nat)
    requires Wf(b) && Complete(Orders(b), b.clients)
    ensures var c := AfterSweep(b, o.IsSell(), Swept(b, o, clientId));
            Complete(Orders(c), c.clients)
  {
    hide MatchSide, Keys, Consumed, SuffixOf, DistinctIds;
    SideQtys(b.bids, false);
    SideQtys(b.asks, true);
    var s := Swept(b, o, clientId);
    var x, y := Flat(b.bids), Flat(b.asks);
    if o.IsSell() {
      SweepSuffix(o, o.qty, clientId, b.bids, b.clients, b.tradeSeq);
      SuffixComplete(Flat(s.levels), x, y, b.clients);
    } else {
      SweepSuffix(o, o.qty, clientId, b.asks, b.clients, b.tradeSeq);
      CompleteSwap(x, y, b.clients);
      DistinctConcat(x, y);
      DistinctConcat(y, x);
      assert DistinctIds(y + x) by { hide *; DisjointSwap(x, y); }
      SuffixComplete(Flat(s.levels), y, x, b.clients);
      CompleteSwap(Flat(s.levels), x, s.clients);
    }
  }

  lemma SubmitKeepsComplete(b: Book, o: Order, clientId: nat)
    requires Wf(b) && FreshId(b, o) && Complete(Orders(b), b.clients)
    requires forall r :: r in Orders(b) ==> KeyOf(r) != (o.userId, o.clientOrderId)
    ensures var c := Submit(b, o, clientId).book;
            Complete(Orders(c), c.clients)
  {
    hide MatchSide, Rest, SideOk, NotCrossed, DistinctIds, ClientsLive, Flat, Complete;
    var stamped := Stamp(b, o);
    var s := Swept(b, stamped, clientId);
    var b0 := b.(orderSeq := StampedSeq(b, o));
    SeqKeepsWf(b, StampedSeq(b, o));
    SweepKeepsComplete(b0, stamped, clientId);
    var c := AfterSweep(b0, o.IsSell(), s);
    if !s.stp && s.left > 0 && o.Kind() == Limit {
      var r := Resting(stamped.(qty := s.left), clientId);
      SweptKeys(b0, stamped, clientId, KeyOf(r));
      RestComplete(c, r);
    }
  }

  lemma SweptKeys(b: Book, o: Order, clientId: nat, key: ClientKey)
    requires Wf(b) && forall r :: r in Orders(b) ==> KeyOf(r) != key
    ensures forall r :: r in Orders(AfterSweep(b, o.IsSell(), Swept(b, o, clientId))) ==> KeyOf(r) != key
  {
    hide MatchSide, LevelSuffix, SuffixOf, NotCrossed, SideOk, DistinctIds;
    SweepSuffixes(b, o, clientId);
    var c := AfterSweep(b, o.IsSell(), Swept(b, o, clientId));
    assert forall r :: r in Flat(b.bids) || r in Flat(b.asks) ==> r in Orders(b);
    KeysAvoid(Flat(c.bids), Flat(b.bids), key);
    KeysAvoid(Flat(c.asks), Flat(b.asks), key);
  }

  lemma KeysAvoid(rest: seq<Resting>, q: seq<Resting>, key: ClientKey)
    requires SuffixOf(rest, q) && forall r :: r in q ==> KeyOf(r) != key
    ensures forall r :: r in rest ==> KeyOf(r) != key
  {
    forall i | 0 <= i < |rest| ensures KeyOf(rest[i]) != key {
      SuffixAt(rest, q, i);
      assert q[|q| - |rest| + i] in q;
    }
  }

  lemma RestComplete(b: Book, r: Resting)
    requires Complete(Orders(b), b.clients) && forall x :: x in Orders(b) ==> KeyOf(x) != KeyOf(r)
    ensures var c := Rest(b, r).0; Complete(Orders(c), c.clients)
  {
    hide Flat, Place, HasPrice;
    var (c, res) := Rest(b, r);
    if res.Ok? {
      var k := RestInserts(b, r);
      assert Orders(c) == Orders(b)[..k] + [r] + Orders(b)[k..];
    }
  }

  // Is an order of this user with this client id live?
  ghost predicate KeyIsLive(b: Book, o: Order) {
    exists r :: r in Orders(b) && KeyOf(r) == (o.userId, o.clientOrderId)
  }

  // A submission that does not come to rest keeps the index complete.
  lemma SweepOnlyKeepsComplete(b: Book, o: Order, clientId: nat)
    requires Wf(b) && FreshId(b, o) && Complete(Orders(b), b.clients) && !ComesToRest(b, o)
    ensures var c := Submit(b, o, clientId).book; Complete(Orders(c), c.clients)
  {
    hide MatchSide, Rest, SideOk, NotCrossed, DistinctIds, ClientsLive, Flat, Complete, ComesToRest, NoSlot;
    var p := Stamp(b, o);
    var b0 := b.(orderSeq := StampedSeq(b, o));
    RestsExactlyWhen(b, o, clientId);
    RefusalChangesNothing(b, o, clientId);
    SeqKeepsWf(b, StampedSeq(b, o));
    SweepKeepsComplete(b0, p, clientId);
    var out := Submit(b, o, clientId);
    if out.result.Err? { SameOrdersOf(out.book, b); }
  }

  // A sweep leaves the taker's own orders alone.
  lemma OwnOrdersStay(b: Book, o: Order, clientId: nat, r: Resting)
    requires Wf(b) && r in Orders(b) && r.order.userId == o.userId
    ensures r in Orders(AfterSweep(b, o.IsSell(), Swept(b, o, clientId)))
  {
    hide MatchSide, NotCrossed, DistinctIds, ClientsLive, SideOk, Drain, Volume, Flat;
    var levels := if o.IsSell() then b.bids else b.asks;
    SweepIsWaterfall(o, o.qty, clientId, levels, b.clients, b.tradeSeq, !o.IsSell());
    var q, n := Flat(levels), Eligible(o, Flat(levels));
    if r in q {
      var i :| 0 <= i < |q| && q[i] == r;
      assert q[n..][i - n] == r;
    }
  }

  lemma RestEnters(b: Book, r: Resting, other: Resting)
    requires Rest(b, r).1.Ok? && other in Orders(b)
    ensures var c := Rest(b, r).0; other in Orders(c) && KeyOf(r) in c.clients && c.clients[KeyOf(r)] == r.order.id
  {
    hide Flat, Place, HasPrice;
    var k := RestInserts(b, r);
    assert Orders(b) == Orders(b)[..k] + Orders(b)[k..];
  }

  // One that comes to rest under a live client id takes that order's entry over.
  lemma LiveKeyIsTaken(b: Book, o: Order, clientId: nat)
    requires Wf(b) && FreshId(b, o) && ComesToRest(b, o) && KeyIsLive(b, o)
    ensures var c := Submit(b, o, clientId).book; !Complete(Orders(c), c.clients)
  {
    hide MatchSide, Rest, SideOk, NotCrossed, DistinctIds, ClientsLive, Flat, ComesToRest;
    var p := Stamp(b, o);
    var b0 := b.(orderSeq := StampedSeq(b, o));
    RestsExactlyWhen(b, o, clientId);
    SeqKeepsWf(b, StampedSeq(b, o));
    var r :| r in Orders(b) && KeyOf(r) == (o.userId, o.clientOrderId);
    SameOrdersOf(b, b0);
    OwnOrdersStay(b0, p, clientId, r);
    var s := Swept(b, p, clientId);
    RestEnters(AfterSweep(b0, o.IsSell(), s), Resting(p.(qty := s.left), clientId), r);
    assert r.order.id < b.orderSeq && r.order.id != p.id;
  }

  // A complete index stays complete across a submission if and only if the order does not come to rest
  // under the client id of a live order.
  lemma SubmitCompleteIff(b: Book, o: Order, clientId: nat)
    requires Wf(b) && FreshId(b, o) && Complete(Orders(b), b.clients)
    ensures var c := Submit(b, o, clientId).book;
            Complete(Orders(c), c.clients) <==> !(ComesToRest(b, o) && KeyIsLive(b, o))
  {
    hide Wf, Flat, Submit, ComesToRest, Complete;
    if !ComesToRest(b, o) {
      SweepOnlyKeepsComplete(b, o, clientId);
    } else if KeyIsLive(b, o) {
      LiveKeyIsTaken(b, o, clientId);
    } else {
      SubmitKeepsComplete(b, o, clientId);
    }
  }

  // A cancel keeps it complete.
  lemma CancelKeepsComplete(b: Book, userId: nat, id: nat)
    requires Wf(b) && Complete(Orders(b), b.clients)
    ensures var c := CancelOrder(b, userId, id).0; Complete(Orders(c), c.clients)
  {
    hide Flat, Delete, SideOk, NotCrossed, CancelOrder;
    var k := CancelIsExact(b, userId, id);
    var q := Orders(b);
    CompleteKeys(q, b.clients);
    var (c, r) := CancelOrder(b, userId, id);
    if r.Ok? {
      forall i | 0 <= i < |Orders(c)|
        ensures KeyOf(Orders(c)[i]) in c.clients && c.clients[KeyOf(Orders(c)[i])] == Orders(c)[i].order.id
      {
        var j := if i < k then i else i + 1;
        assert Orders(c)[i] == q[j] && q[j] in q;
      }
    }
  }

  // Reusing a live client id is what loses entries: cancelling one of two orders that share a client
  // id leaves the other live without an entry.
  lemma ReusedClientIdIsLost(b: Book, userId: nat, id: nat, other: Resting)
    requires Wf(b) && CancelOrder(b, userId, id).1.Ok?
    requires other in Orders(b) && other.order.id != CancelOrder(b, userId, id).1.value.id
    requires KeyOf(other) == (userId, CancelOrder(b, userId, id).1.value.clientOrderId)
    ensures var c := CancelOrder(b, userId, id).0; other in Orders(c) && KeyOf(other) !in c.clients
  {
    hide Flat, Delete, SideOk, NotCrossed, CancelOrder;
    var k := CancelIsExact(b, userId, id);
    assert Orders(b) == Orders(b)[..k] + [Orders(b)[k]] + Orders(b)[k + 1..];
  }
}
