/** The order index and the price index against the represented book: an id is indexed exactly when an
    order with that id rests, and its entry leads to that order's place. */
module BookLookup {
  import opened Types
  import opened Arena
  import opened Links
  import opened LevelStore
  import opened Matcher
  import opened BookRep
  import opened BookSteps
  import opened BookLaws

  lemma {:induction false} FlatHas(levels: seq<Level>, k: nat, x: Resting)
    requires k < |levels| && x in levels[k].orders
    ensures x in Flat(levels)
  {
    if k > 0 { FlatHas(levels[1..], k - 1, x); }
  }

  lemma {:induction false} FlatFrom(levels: seq<Level>, x: Resting) returns (k: nat)
    requires x in Flat(levels)
    ensures k < |levels| && x in levels[k].orders
  {
    if x in levels[0].orders {
      k := 0;
    } else {
      k := FlatFrom(levels[1..], x);
      k := k + 1;
    }
  }

  // An active level is on exactly one ladder.
  lemma OnLadder(r: Rep, l: nat) returns (isSell: bool, k: nat)
    requires Structure(r) && l < |r.ln| && r.ln[l].active
    ensures k < |Ladder(r, isSell)| && Ladder(r, isSell)[k] == l
  {
    hide Prices, Queues, Homes, Linked;
    isSell := l in r.asks;
    var a := Ladder(r, isSell);
    k :| 0 <= k < |a| && a[k] == l;
  }

  // Where the entry of an indexed id leads.
  lemma {:induction false} EntryLeads(r: Rep, id: nat) returns (isSell: bool, k: nat, j: nat)
    requires Inv(r) && id in r.ids
    ensures k < |Ladder(r, isSell)|
    ensures var e := r.ids[id];
            var l := Ladder(r, isSell)[k];
            && l < |r.ln| == |r.queues| && j < |r.queues[l]| && r.queues[l][j] == e.nodeIdx
            && e.nodeIdx < |r.on| < NULL_IDX && r.on[e.nodeIdx].active && r.on[e.nodeIdx].order.id == id
            && e == EntryOf(r.on[e.nodeIdx].order, e.nodeIdx)
            && e.price in r.prices && r.prices[e.price] == l && r.ln[l].price == e.price
            && k < |Side(r, isSell)| && Side(r, isSell)[k] == Level(e.price, AbsQueue(r.on, r.queues[l]))
            && Side(r, isSell)[k].orders[j] == At(r.on, e.nodeIdx)
            && At(r.on, e.nodeIdx) in Flat(Side(r, isSell))
  {
    hide Structure, QueueAt, Linkable, NoDup;
    var e := r.ids[id];
    assert Stored(r.on, r.queues, r.prices, e, id);
    var l := r.prices[r.on[e.nodeIdx].order.price];
    j :| 0 <= j < |r.queues[l]| && r.queues[l][j] == e.nodeIdx;
    assert Registered(r.on, r.queues[l][j], r.ids);
    QueueNode(r, l, j);
    isSell, k := OnLadder(r, l);
    LadderLevel(r, isSell, k);
    assert AbsQueue(r.on, r.queues[l])[j] == At(r.on, e.nodeIdx);
    FlatHas(Side(r, isSell), k, At(r.on, e.nodeIdx));
  }

  // Every resting order is indexed.
  lemma RestingIsIndexed(r: Rep, isSell: bool, x: Resting)
    requires Inv(r) && x in Flat(Side(r, isSell))
    ensures x.order.id in r.ids
  {
    hide Structure, QueueAt, NoDup;
    var k := FlatFrom(Side(r, isSell), x);
    LadderLevel(r, isSell, k);
    var l := Ladder(r, isSell)[k];
    var q := AbsQueue(r.on, r.queues[l]);
    var j :| 0 <= j < |q| && q[j] == x;
    assert Registered(r.on, r.queues[l][j], r.ids);
  }

  // The order index holds exactly the ids of the resting orders.
  lemma IdsAreLive(r: Rep, id: nat)
    requires Inv(r)
    ensures id in r.ids <==> exists x :: x in Flat(Side(r, false)) + Flat(Side(r, true)) && x.order.id == id
  {
    hide Inv, Side;
    if id in r.ids {
      var isSell, k, j := EntryLeads(r, id);
      assert At(r.on, r.ids[id].nodeIdx) in Flat(Side(r, false)) + Flat(Side(r, true));
    } else {
      forall x | x in Flat(Side(r, false)) + Flat(Side(r, true)) ensures x.order.id != id {
        if x in Flat(Side(r, false)) { RestingIsIndexed(r, false, x); } else { RestingIsIndexed(r, true, x); }
      }
    }
  }

  lemma ConsLevel(levels: seq<Level>, k: nat, l: Level)
    requires 0 < k < |levels|
    ensures [levels[0]] + (levels[1..][..k - 1] + levels[1..][k..]) == levels[..k] + levels[k + 1..]
    ensures [levels[0]] + levels[1..][k - 1 := l] == levels[k := l]
  {
  }

  // Deleting by id, once the order's place is known.
  lemma {:induction false} DeleteAt(levels: seq<Level>, k: nat, j: nat, id: nat)
    requires DistinctIds(Flat(levels)) && k < |levels| && j < |levels[k].orders| && levels[k].orders[j].order.id == id
    ensures var q := levels[k].orders;
            Delete(levels, id) == if |q| == 1 then levels[..k] + levels[k + 1..]
                                  else levels[k := levels[k].(orders := q[..j] + q[j + 1..])]
  {
    var head, tail := levels[0].orders, levels[1..];
    DistinctConcat(head, Flat(tail));
    if k == 0 {
      FindAt(head, j);
      DeletePosition(head, j);
    } else {
      FlatHas(tail, k - 1, tail[k - 1].orders[j]);
      var m :| 0 <= m < |Flat(tail)| && Flat(tail)[m] == tail[k - 1].orders[j];
      assert FindIn(head, id).None? by { DisjointFindNone(head, Flat(tail), m); }
      DeleteAt(tail, k - 1, j, id);
      var q := levels[k].orders;
      ConsLevel(levels, k, levels[k].(orders := q[..j] + q[j + 1..]));
    }
  }

  lemma DisjointFindNone(a: seq<Resting>, b: seq<Resting>, m: nat)
    requires DisjointIds(a, b) && m < |b|
    ensures FindIn(a, b[m].order.id).None?
  {
  }

  lemma FindAt(q: seq<Resting>, j: nat)
    requires DistinctIds(q) && j < |q|
    ensures FindIn(q, q[j].order.id) == Some(q[j])
  {
    assert q[j] in q;
  }

  lemma {:induction false} DeletePosition(q: seq<Resting>, j: nat)
    requires DistinctIds(q) && j < |q|
    ensures DeleteFrom(q, q[j].order.id) == q[..j] + q[j + 1..]
  {
    if j > 0 {
      assert q[0].order.id != q[j].order.id;
      assert [q[0]] + q[1..] == q;
      DistinctConcat([q[0]], q[1..]);
      DeletePosition(q[1..], j - 1);
    }
  }
}
