/** The steps of the engine on a snapshot: reduce the oldest order of a level, take an order out of its
    queue, put one in. Each keeps the lists and changes the represented book in one place. */
module BookSteps {
  import opened Types
  import opened Arena
  import opened Links
  import opened LevelStore
  import opened Matcher
  import opened BookRep

  function Side(r: Rep, isSell: bool): seq<Level> { AbsSide(r.on, r.ln, r.queues, Ladder(r, isSell)) }

  // The represented book changes in the queue of one level only.
  ghost predicate Changed(r: Rep, r': Rep, isSell: bool, k: nat, q: seq<Resting>) {
    && r' == r.(on := r'.on, ln := r'.ln, queues := r'.queues, ids := r'.ids)
    && k < |Ladder(r, isSell)|
    && Side(r', isSell) == Side(r, isSell)[k := Side(r, isSell)[k].(orders := q)]
    && Side(r', !isSell) == Side(r, !isSell)
  }

  lemma ChangedTwice(r: Rep, r': Rep, r'': Rep, isSell: bool, k: nat, q: seq<Resting>, q': seq<Resting>)
    requires Changed(r, r', isSell, k, q) && Changed(r', r'', isSell, k, q')
    ensures Changed(r, r'', isSell, k, q')
  {
  }

  ghost predicate InRange(q: seq<nat>, n: nat) {
    forall j :: 0 <= j < |q| ==> q[j] < n
  }

  // Facts about the level at position k of a ladder.
  lemma LadderLevel(r: Rep, isSell: bool, k: nat)
    requires Structure(r) && k < |Ladder(r, isSell)|
    ensures var l := Ladder(r, isSell)[k];
            && l < |r.ln| == |r.queues| && r.ln[l].active
            && QueueAt(r.on, r.queues[l], r.ln[l])
            && r.ln[l].price in r.prices && r.prices[r.ln[l].price] == l
            && Side(r, isSell)[k] == Level(r.ln[l].price, AbsQueue(r.on, r.queues[l]))
            && l !in Ladder(r, !isSell)
            && NoDup(Ladder(r, isSell)) && NoDup(Ladder(r, !isSell))
    ensures InRange(Ladder(r, isSell), |r.ln|) && InRange(Ladder(r, !isSell), |r.ln|)
  {
    hide QueueAt, Homes;
    LinkedSize(LevelPrev(r.ln), LevelNext(r.ln), r.bids);
    LinkedSize(LevelPrev(r.ln), LevelNext(r.ln), r.asks);
    LinkedNoDup(LevelPrev(r.ln), LevelNext(r.ln), r.bids);
    LinkedNoDup(LevelPrev(r.ln), LevelNext(r.ln), r.asks);
    var l := Ladder(r, isSell)[k];
    assert l in Ladder(r, isSell);
    hide Linked, NoDup;
    assert r.ln[l].active;
  }

  // Facts about the node at position j of the queue of level l.
  lemma QueueNode(r: Rep, l: nat, j: nat)
    requires Structure(r) && l < |r.queues| && j < |r.queues[l]|
    ensures l < |r.ln| && r.ln[l].active && QueueAt(r.on, r.queues[l], r.ln[l]) && NoDup(r.queues[l])
    ensures var i := r.queues[l][j];
            && i < |r.on| < NULL_IDX && r.on[i].active && r.on[i].order.price == r.ln[l].price
            && r.on[i].prev == Before(r.queues[l], j) && r.on[i].next == After(r.queues[l], j)
            && Linkable(r.on, r.on[i].prev) && Linkable(r.on, r.on[i].next)
            && AbsQueue(r.on, r.queues[l])[j] == Resting(r.on[i].order, r.on[i].clientId)
  {
    hide Ladders, Prices;
    assert r.queues[l] != [];
    assert r.ln[l].active;
    var q := r.queues[l];
    var i := q[j];
    QueueUnlink(r.on, q, r.ln[l], j);
    LinkedSize(OrderPrev(r.on), OrderNext(r.on), q);
    LinkedNoDup(OrderPrev(r.on), OrderNext(r.on), q);
    hide Linked, NoDup;
    assert 0 < j ==> r.on[q[j - 1]].active;
    assert j + 1 < |q| ==> r.on[q[j + 1]].active;
  }

  // A level step, seen from the book.
  lemma LevelStepChanges(r: Rep, r': Rep, isSell: bool, k: nat)
    requires Structure(r) && k < |Ladder(r, isSell)| && LevelStep(r, r', Ladder(r, isSell)[k])
    ensures Structure(r') && Changed(r, r', isSell, k, AbsQueue(r'.on, r'.queues[Ladder(r, isSell)[k]]))
  {
    hide LevelStep, Structure, AbsSide, NoDup;
    var l := Ladder(r, isSell)[k];
    LevelStepKeeps(r, r', l);
    LadderLevel(r, isSell, k);
    LevelStepAbs(r, r', l, Ladder(r, isSell));
    LevelStepAbs(r, r', l, Ladder(r, !isSell));
    LevelStepFixes(r, r', l);
  }

  lemma LevelStepFixes(r: Rep, r': Rep, l: nat)
    requires LevelStep(r, r', l)
    ensures r' == r.(on := r'.on, ln := r'.ln, queues := r'.queues)
  {
  }

  // ----- Reduce the oldest order of a level -------------------------------------------------------

  function ReduceRep(r: Rep, l: nat, i: nat, qty: nat): Rep
    requires l < |r.ln| && i < |r.on| && qty <= r.on[i].order.qty && qty <= r.ln[l].totalQty
  {
    r.(on := r.on[i := Filled(r.on[i], qty)],
       ln := r.ln[l := r.ln[l].(totalQty := r.ln[l].totalQty - qty)])
  }

  lemma SumReduce(on: seq<OrderNode>, on': seq<OrderNode>, q: seq<nat>, j: nat, qty: nat)
    requires NoDup(q) && j < |q| && q[j] < |on| && qty <= on[q[j]].order.qty
    requires |on'| == |on| && on'[q[j]].order.qty == on[q[j]].order.qty - qty
    requires forall i :: 0 <= i < |on| && i != q[j] ==> on'[i] == on[i]
    ensures SumQty(on', q) == SumQty(on, q) - qty && qty <= SumQty(on, q)
  {
    SumWithout(on, q, j);
    SumWithout(on', q, j);
    RemoveNoDup(q, j);
    SumSame(on, on', Without(q, j));
  }

  lemma {:induction false} ReduceStep(r: Rep, isSell: bool, k: nat, qty: nat)
    requires Inv(r) && k < |Ladder(r, isSell)|
    requires var l := Ladder(r, isSell)[k];
             && l < |r.queues| && r.queues[l] != [] && r.queues[l][0] < |r.on| && qty <= r.on[r.queues[l][0]].order.qty
    ensures var l := Ladder(r, isSell)[k];
            && l < |r.ln| && qty <= r.ln[l].totalQty
            && var r' := ReduceRep(r, l, r.queues[l][0], qty);
            var q := AbsQueue(r.on, r.queues[l]);
            && Inv(r') && q != [] && qty <= q[0].order.qty
            && Changed(r, r', isSell, k, [Reduced(q[0], qty)] + q[1..])
  {
    hide Structure, NoDup, LevelStep, QueueAt, Linked, Changed, Indexed, AbsSide;
    var l := Ladder(r, isSell)[k];
    LadderLevel(r, isSell, k);
    QueueNode(r, l, 0);
    ReduceBound(r, l, qty);
    var r' := ReduceRep(r, l, r.queues[l][0], qty);
    ReduceIsLevelStep(r, l, qty);
    LevelStepChanges(r, r', isSell, k);
    IndexedSame(r.on, r'.on, r.queues, r.prices, r.ids);
    ReduceAbs(r, l, qty);
  }

  lemma ReduceBound(r: Rep, l: nat, qty: nat)
    requires l < |r.ln| && l < |r.queues| && QueueAt(r.on, r.queues[l], r.ln[l]) && r.queues[l] != []
    requires r.queues[l][0] < |r.on| && qty <= r.on[r.queues[l][0]].order.qty
    ensures qty <= r.ln[l].totalQty
  {
    hide Linked;
  }

  lemma ReduceIsLevelStep(r: Rep, l: nat, qty: nat)
    requires Structure(r) && l < |r.ln| && l < |r.queues| && r.ln[l].active && r.queues[l] != []
    requires r.queues[l][0] < |r.on| && qty <= r.on[r.queues[l][0]].order.qty
    requires qty <= r.ln[l].totalQty
    ensures LevelStep(r, ReduceRep(r, l, r.queues[l][0], qty), l)
  {
    hide Ladders, NoDup, Linked;
    QueueNode(r, l, 0);
    var i := r.queues[l][0];
    var r' := ReduceRep(r, l, i, qty);
    SumReduce(r.on, r'.on, r.queues[l], 0, qty);
    assert OrderPrev(r'.on) == OrderPrev(r.on) && OrderNext(r'.on) == OrderNext(r.on);
    assert i in r.queues[l];
    forall m, j | 0 <= m < |r.queues| && m != l && 0 <= j < |r.queues[m]| ensures r.queues[m][j] !in r.queues[l] {
      assert r.queues[m] != [];
      assert r.ln[m].active;
      QueuesDisjoint(r, l, m, j);
    }
  }

  lemma ReduceAbs(r: Rep, l: nat, qty: nat)
    requires l < |r.ln| && l < |r.queues| && r.queues[l] != [] && NoDup(r.queues[l])
    requires r.queues[l][0] < |r.on| && qty <= r.on[r.queues[l][0]].order.qty && qty <= r.ln[l].totalQty
    ensures var r' := ReduceRep(r, l, r.queues[l][0], qty);
            var q := AbsQueue(r.on, r.queues[l]);
            AbsQueue(r'.on, r'.queues[l]) == [Reduced(q[0], qty)] + q[1..]
  {
  }

  // ----- Take the order at position j out of the queue of a level ---------------------------------

  function UnlinkRep(r: Rep, l: nat, j: nat): Rep
    requires l < |r.ln| && l < |r.queues| && j < |r.queues[l]| && r.queues[l][j] < |r.on|
  {
    var i := r.queues[l][j];
    r.(on := UnlinkNodes(r.on, i), ln := r.ln[l := UnlinkLevel(r.ln[l], r.on[i])],
       queues := r.queues[l := Without(r.queues[l], j)])
  }

  lemma ElsewhereNotQueued(r: Rep, l: nat, q: seq<nat>)
    requires Structure(r) && l < |r.ln| && l < |r.queues| && r.ln[l].active
    requires forall i :: i in q ==> i in r.queues[l]
    ensures forall m, j {:trigger r.queues[m][j]} :: 0 <= m < |r.queues| && m != l && 0 <= j < |r.queues[m]| ==>
              r.queues[m][j] !in q
  {
    hide Ladders, Linked;
    forall m, j | 0 <= m < |r.queues| && m != l && 0 <= j < |r.queues[m]| ensures r.queues[m][j] !in q {
      assert r.queues[m] != [];
      assert r.ln[m].active;
      QueuesDisjoint(r, l, m, j);
    }
  }

  lemma UnlinkIsLevelStep(r: Rep, l: nat, j: nat)
    requires Structure(r) && l < |r.queues| && j < |r.queues[l]|
    ensures l < |r.ln| && r.queues[l][j] < |r.on|
    ensures LevelStep(r, UnlinkRep(r, l, j), l)
  {
    QueueNode(r, l, j);
    var q := r.queues[l];
    var i := q[j];
    QueueUnlink(r.on, q, r.ln[l], j);
    RemoveNoDup(q, j);
    ElsewhereNotQueued(r, l, Without(q, j));
    hide Ladders, Linked, NoDup, QueueAt, Prices, UnlinkNodes, Without;
    var r' := UnlinkRep(r, l, j);
    forall k | 0 <= k < |r'.queues[l]|
      ensures r'.queues[l][k] < |r'.on| && r'.on[r'.queues[l][k]].order.price == r'.ln[l].price
    {
      assert r'.queues[l][k] in Without(q, j);
      var m :| 0 <= m < |q| && q[m] == r'.queues[l][k];
      assert r.queues[l][m] < |r.on|;
    }
  }

  lemma UnlinkAbs(r: Rep, l: nat, j: nat)
    requires Structure(r) && l < |r.queues| && j < |r.queues[l]|
    ensures l < |r.ln| && r.queues[l][j] < |r.on|
    ensures var r' := UnlinkRep(r, l, j);
            var q := AbsQueue(r.on, r.queues[l]);
            AbsQueue(r'.on, r'.queues[l]) == q[..j] + q[j + 1..]
  {
    hide Structure, QueueAt, UnlinkNodes, NoDup, Linked;
    QueueNode(r, l, j);
    QueueUnlink(r.on, r.queues[l], r.ln[l], j);
    var r' := UnlinkRep(r, l, j);
    SameDataAbs(r.on, r'.on, Without(r.queues[l], j));
  }

  lemma SameDataAbs(on: seq<OrderNode>, on': seq<OrderNode>, q: seq<nat>)
    requires SameData(on, on')
    ensures AbsQueue(on', q) == AbsQueue(on, q)
  {
  }

  lemma {:induction false} UnlinkStep(r: Rep, isSell: bool, k: nat, j: nat)
    requires Structure(r) && k < |Ladder(r, isSell)|
    requires var l := Ladder(r, isSell)[k]; l < |r.queues| && j < |r.queues[l]|
    ensures var l := Ladder(r, isSell)[k];
            && l < |r.ln| && r.queues[l][j] < |r.on|
            && var r' := UnlinkRep(r, l, j);
            var q := AbsQueue(r.on, r.queues[l]);
            && Structure(r') && Changed(r, r', isSell, k, q[..j] + q[j + 1..])
            && Unqueued(r', r.queues[l][j])
  {
    hide Structure, NoDup, LevelStep, QueueAt, Linked, Changed, AbsSide;
    var l := Ladder(r, isSell)[k];
    UnlinkIsLevelStep(r, l, j);
    LevelStepChanges(r, UnlinkRep(r, l, j), isSell, k);
    UnlinkAbs(r, l, j);
    UnlinkUnqueues(r, l, j);
  }

  lemma UnlinkUnqueues(r: Rep, l: nat, j: nat)
    requires Structure(r) && l < |r.queues| && j < |r.queues[l]|
    ensures l < |r.ln| && r.queues[l][j] < |r.on|
    ensures Unqueued(UnlinkRep(r, l, j), r.queues[l][j])
  {
    QueueNode(r, l, j);
    ElsewhereNot(r, l, j);
    RemoveNoDup(r.queues[l], j);
    hide Structure, NoDup, Without, UnlinkNodes, QueueAt;
    var r' := UnlinkRep(r, l, j);
    forall m, k | 0 <= m < |r'.queues| && 0 <= k < |r'.queues[m]| ensures r'.queues[m][k] != r.queues[l][j] {
      if m == l { assert r'.queues[m][k] in Without(r.queues[l], j); }
    }
  }

  function FreedNode(node: OrderNode, freeHead: nat): OrderNode {
    node.(active := false, next := freeHead, prev := NULL_IDX)
  }

  // Free node i and forget order id.
  function ForgetRep(r: Rep, i: nat, freeHead: nat, id: nat): Rep
    requires i < |r.on|
  {
    r.(on := r.on[i := FreedNode(r.on[i], freeHead)], ids := r.ids - {id})
  }

  lemma UnlinkKeepsOrders(r: Rep, l: nat, j: nat)
    requires Structure(r) && l < |r.queues| && j < |r.queues[l]|
    ensures l < |r.ln| && r.queues[l][j] < |r.on|
    ensures SameData(r.on, UnlinkRep(r, l, j).on)
  {
    QueueNode(r, l, j);
    QueueUnlink(r.on, r.queues[l], r.ln[l], j);
  }

  // Remove an order from its queue, its arena and the index; the level stays.
  lemma {:induction false} RemoveStep(r: Rep, isSell: bool, k: nat, j: nat, freeHead: nat)
    requires Inv(r) && k < |Ladder(r, isSell)|
    requires var l := Ladder(r, isSell)[k]; l < |r.queues| && j < |r.queues[l]|
    ensures var l := Ladder(r, isSell)[k];
            && l < |r.ln| && r.queues[l][j] < |r.on|
            && var i := r.queues[l][j];
            var r' := ForgetRep(UnlinkRep(r, l, j), i, freeHead, r.on[i].order.id);
            var q := AbsQueue(r.on, r.queues[l]);
            && Inv(r') && Changed(r, r', isSell, k, q[..j] + q[j + 1..])
  {
    hide Structure, NoDup, Indexed, AbsSide, UnlinkNodes, SameData;
    var l := Ladder(r, isSell)[k];
    UnlinkStep(r, isSell, k, j);
    UnlinkKeepsOrders(r, l, j);
    var i := r.queues[l][j];
    var r1 := UnlinkRep(r, l, j);
    var r2 := r1.(on := r1.on[i := FreedNode(r1.on[i], freeHead)]);
    var r' := ForgetRep(r1, i, freeHead, r.on[i].order.id);
    NodeStepKeeps(r1, r2, i);
    StructureIgnoresIds(r2, r'.ids);
    ElsewhereNot(r, l, j);
    FreeKeepsOrders(r.on, r1.on, i, freeHead);
    IndexedRemove(r.on, r'.on, r.queues, r.prices, r.prices, r.ids, l, j);
  }

  lemma StructureIgnoresIds(r: Rep, ids: map<nat, IndexEntry>)
    requires Structure(r)
    ensures Structure(r.(ids := ids))
  {
  }

  lemma FreeKeepsOrders(on: seq<OrderNode>, on': seq<OrderNode>, i: nat, freeHead: nat)
    requires SameData(on, on') && i < |on|
    ensures SameOrders(on, on'[i := FreedNode(on'[i], freeHead)])
  {
  }

  // Remove the only order of a level together with the level.
  lemma {:induction false} RemoveLastStep(r: Rep, isSell: bool, k: nat, levelHead: nat, freeHead: nat)
    requires Inv(r) && k < |Ladder(r, isSell)|
    requires var l := Ladder(r, isSell)[k]; l < |r.queues| && |r.queues[l]| == 1
    ensures var l := Ladder(r, isSell)[k];
            && l < |r.ln| && r.queues[l][0] < |r.on|
            && var i := r.queues[l][0];
            var r1 := UnlinkRep(r, l, 0);
            var r' := ForgetRep(CloseRep(r1, isSell, k, levelHead), i, freeHead, r.on[i].order.id);
            var s := Side(r, isSell);
            && Inv(r') && Side(r', isSell) == s[..k] + s[k + 1..] && Side(r', !isSell) == Side(r, !isSell)
  {
    hide Structure, NoDup, Indexed, AbsLevel, UnlinkNodes, SameData, UnlinkLevels;
    var l := Ladder(r, isSell)[k];
    UnlinkStep(r, isSell, k, 0);
    UnlinkKeepsOrders(r, l, 0);
    var i := r.queues[l][0];
    var r1 := UnlinkRep(r, l, 0);
    assert r1.queues[l] == [];
    CloseKeeps(r1, isSell, k, levelHead);
    CloseAbs(r1, isSell, k, levelHead);
    var r2 := CloseRep(r1, isSell, k, levelHead);
    assert Side(r2, isSell) == Side(r, isSell)[..k] + Side(r, isSell)[k + 1..] && Side(r2, !isSell) == Side(r, !isSell);
    var r3 := r2.(on := r2.on[i := FreedNode(r2.on[i], freeHead)]);
    var r' := ForgetRep(r2, i, freeHead, r.on[i].order.id);
    NodeStepKeeps(r2, r3, i);
    StructureIgnoresIds(r3, r'.ids);
    ElsewhereNot(r, l, 0);
    FreeKeepsOrders(r.on, r1.on, i, freeHead);
    LadderLevel(r, isSell, k);
    PricesOnce(r, l);
    IndexedRemove(r.on, r'.on, r.queues, r.prices, r'.prices, r.ids, l, 0);
    assert Structure(r');
    assert Indexed(r'.on, r'.queues, r'.prices, r'.ids);
  }

  lemma PricesOnce(r: Rep, l: nat)
    requires Structure(r) && l < |r.ln|
    ensures forall p :: p in r.prices && r.prices[p] != l ==> p != r.ln[l].price || !r.ln[l].active
    ensures r.ln[l].active ==> r.ln[l].price in r.prices && r.prices[r.ln[l].price] == l
  {
    hide Ladders, Queues, Homes;
  }

  // ----- Queue a node at the back of a level ------------------------------------------------------

  function PushRep(r: Rep, l: nat, i: nat): Rep
    requires l < |r.ln| && l < |r.queues| && i < |r.on|
  {
    r.(on := PushNodes(r.on, r.ln[l].tailOrder, i), ln := r.ln[l := PushLevel(r.ln[l], i, r.on[i].order.qty)],
       queues := r.queues[l := r.queues[l] + [i]])
  }

  lemma {:induction false} PushIsLevelStep(r: Rep, l: nat, i: nat)
    requires Structure(r) && Unqueued(r, i) && i < |r.on| && r.on[i].active
    requires l < |r.ln| && l < |r.queues| && r.ln[l].active && r.on[i].order.price == r.ln[l].price
    ensures LevelStep(r, PushRep(r, l, i), l)
    ensures SameData(r.on, PushRep(r, l, i).on)
  {
    hide Ladders, Linked, NoDup, Prices, PushNodes;
    var q := r.queues[l];
    assert i !in q;
    assert QueueAt(r.on, q, r.ln[l]);
    QueuePush(r.on, q, r.ln[l], i);
    ElsewhereNotQueued(r, l, q);
    hide QueueAt;
    var r' := PushRep(r, l, i);
    forall k | 0 <= k < |r'.queues[l]|
      ensures r'.queues[l][k] < |r'.on| && r'.on[r'.queues[l][k]].order.price == r'.ln[l].price
    {
      if k < |q| { assert r'.queues[l][k] == r.queues[l][k]; }
    }
    forall m, j | 0 <= m < |r.queues| && m != l && 0 <= j < |r.queues[m]| ensures r.queues[m][j] !in q + [i] {
      assert r.queues[m][j] != i && r.queues[m][j] !in q;
    }
  }

  lemma PushAbs(r: Rep, l: nat, i: nat)
    requires Structure(r) && i < |r.on| && l < |r.ln| && l < |r.queues| && SameData(r.on, PushRep(r, l, i).on)
    ensures var r' := PushRep(r, l, i);
            AbsQueue(r'.on, r'.queues[l]) == AbsQueue(r.on, r.queues[l]) + [Resting(r.on[i].order, r.on[i].clientId)]
  {
    hide Ladders, Linked, Prices, Queues, PushNodes;
  }

  // Queue node i, whose id is new, and enter it in the index.
  lemma EnqueueStep(r: Rep, isSell: bool, k: nat, i: nat)
    requires Inv(r) && k < |Ladder(r, isSell)| && i < |r.on| && r.on[i].active && Unqueued(r, i)
    requires var l := Ladder(r, isSell)[k]; l < |r.ln| && r.ln[l].price == r.on[i].order.price
    requires r.on[i].order.id !in r.ids
    ensures var l := Ladder(r, isSell)[k];
            && l < |r.queues|
            && var r1 := PushRep(r, l, i);
            var r' := r1.(ids := r1.ids[r.on[i].order.id := EntryOf(r.on[i].order, i)]);
            && Inv(r')
            && Changed(r, r', isSell, k, Side(r, isSell)[k].orders + [Resting(r.on[i].order, r.on[i].clientId)])
  {
    var l := Ladder(r, isSell)[k];
    LadderLevel(r, isSell, k);
    hide Structure, NoDup, LevelStep, QueueAt, Linked, AbsSide, Indexed, PushNodes;
    PushIsLevelStep(r, l, i);
    PushAbs(r, l, i);
    var r1 := PushRep(r, l, i);
    LevelStepChanges(r, r1, isSell, k);
    StructureIgnoresIds(r1, r1.ids[r.on[i].order.id := EntryOf(r.on[i].order, i)]);
    IndexedInsert(r.on, r1.on, r.queues, r.prices, r.prices, r.ids, l, i);
  }

  // Overwriting a free node changes neither the lists nor the index.
  lemma AllocKeeps(r: Rep, i: nat, node: OrderNode)
    requires Inv(r) && i < |r.on| && !r.on[i].active
    ensures var r' := r.(on := r.on[i := node]);
            && Inv(r') && Unqueued(r', i)
            && Bids(r') == Bids(r) && Asks(r') == Asks(r)
  {
    hide Structure, AbsSide;
    InactiveIsUnqueued(r, i);
    var r' := r.(on := r.on[i := node]);
    NodeStepKeeps(r, r', i);
    forall l, k | 0 <= l < |r.queues| && 0 <= k < |r.queues[l]| ensures Registered(r'.on, r.queues[l][k], r.ids) {
      assert Registered(r.on, r.queues[l][k], r.ids);
    }
    forall id | id in r.ids ensures Stored(r'.on, r.queues, r.prices, r.ids[id], id) {
      assert Stored(r.on, r.queues, r.prices, r.ids[id], id);
      var q := r.queues[r.prices[r.on[r.ids[id].nodeIdx].order.price]];
      var k :| 0 <= k < |q| && q[k] == r.ids[id].nodeIdx;
    }
  }

  // Opening an empty level keeps the order index.
  lemma {:induction false} OpenIndexed(r: Rep, isSell: bool, k: nat, l: nat, price: nat)
    requires Inv(r) && k <= |Ladder(r, isSell)| && |r.on| < NULL_IDX
    requires l < |r.ln| && !r.ln[l].active && price !in r.prices
    ensures Inv(OpenRep(r, isSell, k, l, price))
  {
    OpenKeeps(r, isSell, k, l, price);
    hide Structure, LinkLevels, Indexed;
    MorePrices(r.on, r.queues, r.prices, price, l, r.ids);
  }

  lemma MorePrices(on: seq<OrderNode>, queues: seq<seq<nat>>, prices: map<nat, nat>, price: nat, l: nat,
                   ids: map<nat, IndexEntry>)
    requires Indexed(on, queues, prices, ids) && price !in prices
    ensures Indexed(on, queues, prices[price := l], ids)
  {
    forall id | id in ids ensures Stored(on, queues, prices[price := l], ids[id], id) {
      assert Stored(on, queues, prices, ids[id], id);
    }
  }
}
