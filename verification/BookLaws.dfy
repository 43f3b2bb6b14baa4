/** Laws of the book as a whole: submissions and cancels keep it well formed and uncrossed, a refused
    order changes nothing, and a cancel removes exactly one order. */
module BookLaws {
  import opened Types
  import opened Matcher

  // ----- Sequences of orders ----------------------------------------------------------------------

  // What matching leaves of a queue: a suffix whose first order may have been reduced.
  ghost predicate SuffixOf(rest: seq<Resting>, q: seq<Resting>) {
    && |rest| <= |q|
    && (forall i :: 0 < i < |rest| ==> rest[i] == q[|q| - |rest| + i])
    && (rest != [] ==>
          var r := q[|q| - |rest|];
          rest[0] == r.(order := r.order.(qty := rest[0].order.qty)) && 0 < rest[0].order.qty <= r.order.qty)
  }

  function Keys(q: seq<Resting>): set<ClientKey> { set r | r in q :: KeyOf(r) }

  function Consumed(q: seq<Resting>, rest: seq<Resting>): seq<Resting>
    requires |rest| <= |q|
  {
    q[..|q| - |rest|]
  }

  ghost predicate SameOrder(r: Resting, s: Resting) {
    r == s.(order := s.order.(qty := r.order.qty)) && r.order.qty <= s.order.qty
  }

  lemma SuffixAt(rest: seq<Resting>, q: seq<Resting>, i: nat)
    requires SuffixOf(rest, q) && i < |rest|
    ensures SameOrder(rest[i], q[|q| - |rest| + i])
  {
  }

  lemma SuffixPrepend(a: seq<Resting>, rest: seq<Resting>, q: seq<Resting>)
    requires SuffixOf(rest, q)
    ensures |rest| <= |q| && SuffixOf(rest, a + q) && Consumed(a + q, rest) == a + Consumed(q, rest)
  {
  }

  lemma SuffixAppend(rest: seq<Resting>, q: seq<Resting>, t: seq<Resting>)
    requires SuffixOf(rest, q) && rest != []
    ensures SuffixOf(rest + t, q + t) && Consumed(q + t, rest + t) == Consumed(q, rest)
  {
  }

  lemma KeysConcat(a: seq<Resting>, b: seq<Resting>)
    ensures Keys(a + b) == Keys(a) + Keys(b)
  {
    assert forall r :: r in a + b <==> r in a || r in b;
    assert forall k :: k in Keys(a) + Keys(b) ==> k in Keys(a + b);
  }

  ghost predicate DisjointIds(a: seq<Resting>, b: seq<Resting>) {
    forall i, j :: 0 <= i < |a| && 0 <= j < |b| ==> a[i].order.id != b[j].order.id
  }

  lemma DisjointSwap(x: seq<Resting>, y: seq<Resting>)
    ensures DisjointIds(x, y) ==> DisjointIds(y, x)
  {
  }

  lemma DistinctConcat(a: seq<Resting>, b: seq<Resting>)
    ensures DistinctIds(a + b) <==> DistinctIds(a) && DistinctIds(b) && DisjointIds(a, b)
  {
    if DistinctIds(a + b) {
      forall i, j | 0 <= i < |a| && 0 <= j < |b| ensures a[i].order.id != b[j].order.id {
        assert (a + b)[i] == a[i] && (a + b)[|a| + j] == b[j];
      }
      forall i, j | 0 <= i < j < |a| ensures a[i].order.id != a[j].order.id {
        assert (a + b)[i] == a[i] && (a + b)[j] == a[j];
      }
      forall i, j | 0 <= i < j < |b| ensures b[i].order.id != b[j].order.id {
        assert (a + b)[|a| + i] == b[i] && (a + b)[|a| + j] == b[j];
      }
    }
  }

  lemma SuffixDistinct(rest: seq<Resting>, q: seq<Resting>)
    requires SuffixOf(rest, q) && DistinctIds(q)
    ensures DistinctIds(rest)
  {
    forall i, j | 0 <= i < j < |rest| ensures rest[i].order.id != rest[j].order.id {
      SuffixAt(rest, q, i);
      SuffixAt(rest, q, j);
    }
  }

  lemma SuffixDisjoint(rest: seq<Resting>, q: seq<Resting>, t: seq<Resting>)
    requires SuffixOf(rest, q)
    requires DisjointIds(q, t) || DisjointIds(t, q)
    ensures DisjointIds(rest, t) && DisjointIds(t, rest)
  {
    forall i, j | 0 <= i < |rest| && 0 <= j < |t| ensures rest[i].order.id != t[j].order.id {
      SuffixAt(rest, q, i);
    }
  }

  // ----- What a sweep leaves behind ---------------------------------------------------------------

  predicate TakesHead(o: Order, qty: nat, q: seq<Resting>) {
    qty > 0 && q != [] && q[0].order.userId != o.userId && q[0].order.qty <= qty
  }

  lemma QueueTakes(o: Order, qty: nat, clientId: nat, q: seq<Resting>, clients: map<ClientKey, nat>, tid: nat)
    requires TakesHead(o, qty, q)
    ensures var f := MatchQueue(o, qty, clientId, q, clients, tid);
            var g := MatchQueue(o, qty - q[0].order.qty, clientId, q[1..], clients - {KeyOf(q[0])}, tid + 1);
            f == g.(trades := f.trades) && |f.trades| == 1 + |g.trades|
  {
  }

  lemma QueueStays(o: Order, qty: nat, clientId: nat, q: seq<Resting>, clients: map<ClientKey, nat>, tid: nat)
    requires forall r :: r in q ==> r.order.qty > 0
    requires !TakesHead(o, qty, q)
    ensures var f := MatchQueue(o, qty, clientId, q, clients, tid);
            SuffixOf(f.queue, q) && |f.queue| == |q| && f.clients == clients
  {
    hide MakeTrade, SuffixOf;
    SuffixWhole(q);
    if q != [] && 0 < qty < q[0].order.qty { SuffixReduced(q, qty); }
  }

  lemma SuffixWhole(q: seq<Resting>)
    requires forall r :: r in q ==> r.order.qty > 0
    ensures SuffixOf(q, q)
  {
  }

  lemma SuffixReduced(q: seq<Resting>, qty: nat)
    requires forall r :: r in q ==> r.order.qty > 0
    requires q != [] && 0 < qty < q[0].order.qty
    ensures SuffixOf([Reduced(q[0], qty)] + q[1..], q) && |[Reduced(q[0], qty)] + q[1..]| == |q|
  {
  }

  lemma {:induction false} QueueSuffix(o: Order, qty: nat, clientId: nat, q: seq<Resting>, clients: map<ClientKey, nat>,
                                       tid: nat)
    requires forall r :: r in q ==> r.order.qty > 0
    ensures var f := MatchQueue(o, qty, clientId, q, clients, tid);
            SuffixOf(f.queue, q) && f.clients == clients - Keys(Consumed(q, f.queue))
    decreases |q|
  {
    hide MatchQueue, SuffixOf;
    var f := MatchQueue(o, qty, clientId, q, clients, tid);
    if TakesHead(o, qty, q) {
      var rest := clients - {KeyOf(q[0])};
      QueueTakes(o, qty, clientId, q, clients, tid);
      QueueSuffix(o, qty - q[0].order.qty, clientId, q[1..], rest, tid + 1);
      SuffixPrepend([q[0]], f.queue, q[1..]);
      assert [q[0]] + q[1..] == q;
      KeysConcat([q[0]], Consumed(q[1..], f.queue));
      KeysOne(q[0]);
    } else {
      QueueStays(o, qty, clientId, q, clients, tid);
      assert Consumed(q, f.queue) == [];
    }
  }

  lemma KeysOne(r: Resting)
    ensures Keys([r]) == {KeyOf(r)}
  {
    assert r in [r];
  }

  // The levels that remain are a suffix of the ladder whose first level may have been reduced.
  ghost predicate LevelSuffix(rest: seq<Level>, levels: seq<Level>) {
    && |rest| <= |levels|
    && (forall i :: 0 < i < |rest| ==> rest[i] == levels[|levels| - |rest| + i])
    && (rest != [] ==>
          var l := levels[|levels| - |rest|];
          rest[0] == l.(orders := rest[0].orders) && rest[0].orders != [] && SuffixOf(rest[0].orders, l.orders))
  }

  lemma {:induction false} SweepSuffix(o: Order, qty: nat, clientId: nat, levels: seq<Level>,
                                       clients: map<ClientKey, nat>, tid: nat)
    requires forall i :: 0 <= i < |levels| ==>
             levels[i].orders != [] && forall r :: r in levels[i].orders ==> r.order.qty > 0
    ensures var s := MatchSide(o, qty, clientId, levels, clients, tid);
            && LevelSuffix(s.levels, levels)
            && SuffixOf(Flat(s.levels), Flat(levels))
            && s.clients == clients - Keys(Consumed(Flat(levels), Flat(s.levels)))
    decreases |levels|
  {
    hide Crosses, MatchQueue, MatchSide, LevelSuffix, SuffixOf, Keys, Consumed;
    var s := MatchSide(o, qty, clientId, levels, clients, tid);
    SideUnfolds(o, qty, clientId, levels, clients, tid);
    if qty == 0 || levels == [] || !Crosses(o, levels[0].price) {
      SuffixSelf(levels);
    } else {
      var q := levels[0].orders;
      var f := MatchQueue(o, qty, clientId, q, clients, tid);
      QueueSuffix(o, qty, clientId, q, clients, tid);
      if f.queue == [] {
        SweepSuffix(o, f.left, clientId, levels[1..], f.clients, tid + |f.trades|);
        SuffixPrepend(q, Flat(s.levels), Flat(levels[1..]));
        LevelSuffixPrepend(levels[0], s.levels, levels[1..]);
        assert [levels[0]] + levels[1..] == levels;
        ConsumedAll(q);
        KeysConcat(q, Consumed(Flat(levels[1..]), Flat(s.levels)));
      } else {
        SuffixAppend(f.queue, q, Flat(levels[1..]));
        LevelSuffixHead(levels, f.queue);
      }
    }
  }

  lemma SideUnfolds(o: Order, qty: nat, clientId: nat, levels: seq<Level>, clients: map<ClientKey, nat>, tid: nat)
    ensures var s := MatchSide(o, qty, clientId, levels, clients, tid);
            if qty == 0 || levels == [] || !Crosses(o, levels[0].price) then
              s == Sweep(qty, levels, clients, [], false)
            else
              var f := MatchQueue(o, qty, clientId, levels[0].orders, clients, tid);
              if f.queue == [] then
                var t := MatchSide(o, f.left, clientId, levels[1..], f.clients, tid + |f.trades|);
                s == Sweep(t.left, t.levels, t.clients, f.trades + t.trades, t.stp)
              else
                s == Sweep(f.left, [levels[0].(orders := f.queue)] + levels[1..], f.clients, f.trades, f.stp)
  {
  }

  lemma ConsumedAll(q: seq<Resting>)
    ensures Consumed(q, []) == q
  {
  }

  lemma LevelSuffixPrepend(l: Level, rest: seq<Level>, levels: seq<Level>)
    requires LevelSuffix(rest, levels)
    ensures LevelSuffix(rest, [l] + levels)
  {
  }

  lemma LevelSuffixHead(levels: seq<Level>, q: seq<Resting>)
    requires levels != [] && q != [] && SuffixOf(q, levels[0].orders)
    ensures var rest := [levels[0].(orders := q)] + levels[1..];
            LevelSuffix(rest, levels) && Flat(rest) == q + Flat(levels[1..])
  {
    var rest := [levels[0].(orders := q)] + levels[1..];
    assert rest[1..] == levels[1..];
  }

  lemma SuffixSelf(levels: seq<Level>)
    requires forall i :: 0 <= i < |levels| ==>
             levels[i].orders != [] && forall r :: r in levels[i].orders ==> r.order.qty > 0
    ensures LevelSuffix(levels, levels) && SuffixOf(Flat(levels), Flat(levels))
    ensures Keys(Consumed(Flat(levels), Flat(levels))) == {}
  {
    assert levels != [] ==> Flat(levels)[0] == levels[0].orders[0];
  }

  lemma SuffixSideOk(rest: seq<Level>, levels: seq<Level>, isSell: bool)
    requires LevelSuffix(rest, levels) && SideOk(levels, isSell)
    ensures SideOk(rest, isSell)
  {
    if rest != [] {
      var l := levels[|levels| - |rest|];
      forall r | r in rest[0].orders
        ensures r.order.price == l.price && r.order.qty > 0 && r.order.IsSell() == isSell && r.order.Kind() == Limit
      {
        var i :| 0 <= i < |rest[0].orders| && rest[0].orders[i] == r;
        SuffixAt(rest[0].orders, l.orders, i);
        assert l.orders[|l.orders| - |rest[0].orders| + i] in l.orders;
      }
    }
  }

  lemma SuffixClients(rest: seq<Resting>, q: seq<Resting>, t: seq<Resting>, clients: map<ClientKey, nat>)
    requires SuffixOf(rest, q)
    requires ClientsLive(q + t, clients)
    ensures ClientsLive(rest + t, clients - Keys(Consumed(q, rest)))
  {
    var left := clients - Keys(Consumed(q, rest));
    assert forall i :: 0 <= i < |q| - |rest| ==> q[i] in Consumed(q, rest) && KeyOf(q[i]) in Keys(Consumed(q, rest));
    forall k | k in left
      ensures exists r :: r in rest + t && r.order.id == left[k] && KeyOf(r) == k
    {
      var r :| r in q + t && r.order.id == clients[k] && KeyOf(r) == k;
      if r in t {
        assert r in rest + t;
      } else {
        var i :| 0 <= i < |q| && q[i] == r;
        SuffixAt(rest, q, i - (|q| - |rest|));
        assert rest[i - (|q| - |rest|)] in rest + t;
      }
    }
  }

  lemma ClientsLiveSwap(a: seq<Resting>, b: seq<Resting>, clients: map<ClientKey, nat>)
    requires ClientsLive(a + b, clients)
    ensures ClientsLive(b + a, clients)
  {
    forall k | k in clients
      ensures exists r :: r in b + a && r.order.id == clients[k] && KeyOf(r) == k
    {
      var r :| r in a + b && r.order.id == clients[k] && KeyOf(r) == k;
      assert r in b + a;
    }
  }
}
