/** Doubly linked lists threaded through an arena by index. The FIFO of a price level and the ladder of
    a side are both such lists, so both rest on the three lemmas about `Linked`. */
module Links {
  import opened Types
  import opened Arena

  // ----- The list itself --------------------------------------------------------------------------

  // q is the chain of next links, prev links are its inverse, and no node occurs twice.
  ghost predicate Linked(prev: seq<nat>, next: seq<nat>, q: seq<nat>) {
    && |prev| == |next| < NULL_IDX
    && (forall k {:trigger q[k]} :: 0 <= k < |q| ==> q[k] < |prev|)
    && (forall k {:trigger prev[q[k]]} {:trigger next[q[k]]} :: 0 <= k < |q| ==>
          prev[q[k]] == Before(q, k) && next[q[k]] == After(q, k))
    && NoDup(q)
  }

  // A write through a link; a NULL_IDX link writes nothing.
  function Put(s: seq<nat>, i: nat, v: nat): seq<nat> { if i < |s| then s[i := v] else s }

  function Insert(q: seq<nat>, k: nat, i: nat): seq<nat>
    requires k <= |q|
  {
    q[..k] + [i] + q[k..]
  }

  lemma LinkedFrame(prev: seq<nat>, next: seq<nat>, prev': seq<nat>, next': seq<nat>, q: seq<nat>)
    requires Linked(prev, next, q) && |prev'| == |next'| == |prev|
    requires forall k :: 0 <= k < |q| ==> prev'[q[k]] == prev[q[k]] && next'[q[k]] == next[q[k]]
    ensures Linked(prev', next', q)
  {
  }

  lemma NoDupAt(q: seq<nat>, a: nat, b: nat)
    requires NoDup(q) && a < |q| && b < |q|
    ensures q[a] == q[b] <==> a == b
  {
  }

  // The links of one node after the node at position k is bypassed.
  lemma RemoveAt(prev: seq<nat>, next: seq<nat>, q: seq<nat>, k: nat, j: nat)
    requires Linked(prev, next, q) && k < |q| && j < |q| - 1
    ensures var i := q[k];
            var t := Without(q, k);
            && t[j] < |prev|
            && Put(prev, next[i], prev[i])[t[j]] == Before(t, j) && Put(next, prev[i], next[i])[t[j]] == After(t, j)
  {
    hide NoDup;
    var m := if j < k then j else j + 1;
    if 0 < k { NoDupAt(q, m, k - 1); }
    if k + 1 < |q| { NoDupAt(q, m, k + 1); }
    assert q[m] < |prev| && prev[q[m]] == Before(q, m) && next[q[m]] == After(q, m);
    assert prev[q[k]] == Before(q, k) && next[q[k]] == After(q, k);
  }

  // Bypassing the node at position k removes it from the list.
  lemma LinkedRemove(prev: seq<nat>, next: seq<nat>, q: seq<nat>, k: nat)
    requires Linked(prev, next, q) && k < |q|
    ensures var i := q[k];
            && prev[i] == Before(q, k) && next[i] == After(q, k)
            && Linked(Put(prev, next[i], prev[i]), Put(next, prev[i], next[i]), Without(q, k))
  {
    hide NoDup, Before, After, Put;
    var i := q[k];
    var t := Without(q, k);
    PutSize(prev, next[i], prev[i]);
    PutSize(next, prev[i], next[i]);
    forall j | 0 <= j < |t|
      ensures t[j] < |prev|
           && Put(prev, next[i], prev[i])[t[j]] == Before(t, j) && Put(next, prev[i], next[i])[t[j]] == After(t, j)
    {
      RemoveAt(prev, next, q, k, j);
    }
    RemoveNoDup(q, k);
  }

  lemma PutSize(s: seq<nat>, i: nat, v: nat)
    ensures |Put(s, i, v)| == |s|
  {
  }

  lemma RemoveNoDup(q: seq<nat>, k: nat)
    requires NoDup(q) && k < |q|
    ensures NoDup(Without(q, k)) && forall i :: i in Without(q, k) <==> i in q && i != q[k]
  {
    var t := Without(q, k);
    assert forall j :: 0 <= j < |t| ==> t[j] == q[if j < k then j else j + 1];
    assert q == q[..k] + [q[k]] + q[k + 1..];
  }

  lemma InsertNoDup(q: seq<nat>, k: nat, i: nat)
    requires NoDup(q) && k <= |q| && i !in q
    ensures NoDup(Insert(q, k, i)) && forall j :: j in Insert(q, k, i) <==> j in q || j == i
  {
    var t := Insert(q, k, i);
    assert forall j :: 0 <= j < |t| ==> t[j] == if j < k then q[j] else if j == k then i else q[j - 1];
    assert q == q[..k] + q[k..];
    assert t[k] == i;
  }

  lemma InsertIndex(q: seq<nat>, k: nat, i: nat, j: nat)
    requires k <= |q| && j <= |q|
    ensures var t := Insert(q, k, i);
            && |t| == |q| + 1
            && t[j] == (if j < k then q[j] else if j == k then i else q[j - 1])
            && Before(t, j) == (if j == k + 1 then i else if j <= k then Before(q, j) else q[j - 2])
            && After(t, j) == (if j + 1 == k then i else if j < k then After(q, j)
                               else if j < |q| then q[j] else NULL_IDX)
  {
  }

  // The links after node i is put in at position k: those of i, and those of an old node q[m].
  lemma InsertLinks(prev: seq<nat>, next: seq<nat>, q: seq<nat>, k: nat, i: nat, m: nat)
    requires Linked(prev, next, q) && k <= |q| && i < |prev| && i !in q && m < |q|
    ensures var p := Before(q, k);
            var n := if k < |q| then q[k] else NULL_IDX;
            && q[m] < |prev|
            && Put(prev[i := p], n, i)[q[m]] == (if m == k then i else Before(q, m))
            && Put(next[i := n], p, i)[q[m]] == (if m + 1 == k then i else After(q, m))
  {
    hide NoDup;
    assert q[m] in q && prev[q[m]] == Before(q, m) && next[q[m]] == After(q, m);
    if k < |q| { NoDupAt(q, m, k); }
    if 0 < k { NoDupAt(q, m, k - 1); }
  }

  lemma InsertOwnLinks(prev: seq<nat>, next: seq<nat>, q: seq<nat>, k: nat, i: nat)
    requires Linked(prev, next, q) && k <= |q| && i < |prev| && i !in q
    ensures var p := Before(q, k);
            var n := if k < |q| then q[k] else NULL_IDX;
            Put(prev[i := p], n, i)[i] == p && Put(next[i := n], p, i)[i] == n
  {
    assert k < |q| ==> q[k] in q;
    assert 0 < k ==> q[k - 1] in q;
  }

  lemma LinkedInsert(prev: seq<nat>, next: seq<nat>, q: seq<nat>, k: nat, i: nat)
    requires Linked(prev, next, q) && k <= |q| && i < |prev| && i !in q
    ensures var p := Before(q, k);
            var n := if k < |q| then q[k] else NULL_IDX;
            Linked(Put(prev[i := p], n, i), Put(next[i := n], p, i), Insert(q, k, i))
  {
    var p := Before(q, k);
    var n := if k < |q| then q[k] else NULL_IDX;
    var prev', next' := Put(prev[i := p], n, i), Put(next[i := n], p, i);
    var t := Insert(q, k, i);
    InsertNoDup(q, k, i);
    PutSize(prev[i := p], n, i);
    PutSize(next[i := n], p, i);
    hide NoDup, Put, Insert;
    forall j | 0 <= j < |t|
      ensures t[j] < |prev| && prev'[t[j]] == Before(t, j) && next'[t[j]] == After(t, j)
    {
      InsertIndex(q, k, i, 0);
      InsertIndex(q, k, i, j);
      if j == k {
        InsertOwnLinks(prev, next, q, k, i);
      } else {
        InsertLinks(prev, next, q, k, i, if j < k then j else j - 1);
      }
    }
  }

  // ----- The FIFO of a price level ----------------------------------------------------------------

  function OrderPrev(on: seq<OrderNode>): seq<nat> { seq(|on|, i requires 0 <= i < |on| => on[i].prev) }

  function SetPrev(on: seq<OrderNode>, i: nat, v: nat): (r: seq<OrderNode>)
    ensures |r| == |on|
  {
    if i < |on| then on[i := on[i].(prev := v)] else on
  }

  function SetNext(on: seq<OrderNode>, i: nat, v: nat): (r: seq<OrderNode>)
    ensures |r| == |on|
  {
    if i < |on| then on[i := on[i].(next := v)] else on
  }

  lemma SetPrevIs(on: seq<OrderNode>, i: nat, v: nat)
    ensures OrderPrev(SetPrev(on, i, v)) == Put(OrderPrev(on), i, v)
    ensures OrderNext(SetPrev(on, i, v)) == OrderNext(on)
    ensures SameData(on, SetPrev(on, i, v))
  {
  }

  lemma SetNextIs(on: seq<OrderNode>, i: nat, v: nat)
    ensures OrderNext(SetNext(on, i, v)) == Put(OrderNext(on), i, v)
    ensures OrderPrev(SetNext(on, i, v)) == OrderPrev(on)
    ensures SameData(on, SetNext(on, i, v))
  {
  }

  // Same orders, owners and active flags; only links differ.
  ghost predicate SameData(on: seq<OrderNode>, on': seq<OrderNode>) {
    |on'| == |on| && forall i {:trigger on'[i]} {:trigger on[i]} :: 0 <= i < |on| ==>
      on'[i] == on[i].(prev := on'[i].prev, next := on'[i].next)
  }

  function SumQty(on: seq<OrderNode>, q: seq<nat>): nat {
    if q == [] then 0 else (if q[0] < |on| then on[q[0]].order.qty else 0) + SumQty(on, q[1..])
  }

  lemma {:induction false} SumSame(on: seq<OrderNode>, on': seq<OrderNode>, q: seq<nat>)
    requires |on'| == |on| && forall k :: 0 <= k < |q| && q[k] < |on| ==> on'[q[k]].order.qty == on[q[k]].order.qty
    ensures SumQty(on', q) == SumQty(on, q)
  {
    if q != [] { SumSame(on, on', q[1..]); }
  }

  lemma {:induction false} SumConcat(on: seq<OrderNode>, a: seq<nat>, b: seq<nat>)
    ensures SumQty(on, a + b) == SumQty(on, a) + SumQty(on, b)
  {
    if a == [] {
      assert a + b == b;
    } else {
      assert (a + b)[1..] == a[1..] + b;
      SumConcat(on, a[1..], b);
    }
  }

  lemma {:induction false} SumWithout(on: seq<OrderNode>, q: seq<nat>, k: nat)
    requires k < |q| && q[k] < |on|
    ensures SumQty(on, q) == SumQty(on, Without(q, k)) + on[q[k]].order.qty
  {
    assert q == q[..k] + ([q[k]] + q[k + 1..]);
    SumConcat(on, q[..k], [q[k]] + q[k + 1..]);
    SumConcat(on, [q[k]], q[k + 1..]);
    SumConcat(on, q[..k], q[k + 1..]);
  }

  // The level record lv describes the FIFO q.
  ghost predicate QueueAt(on: seq<OrderNode>, q: seq<nat>, lv: PriceLevelNode) {
    && Linked(OrderPrev(on), OrderNext(on), q)
    && lv.headOrder == First(q) && lv.tailOrder == Last(q)
    && lv.totalQty == SumQty(on, q) && lv.orderCount == |q|
    && forall k {:trigger q[k]} :: 0 <= k < |q| ==> on[q[k]].active
  }

  // push_order, pop_order and unlink_order as functions of the nodes and the level record.
  function PushNodes(on: seq<OrderNode>, tail: nat, i: nat): seq<OrderNode> {
    SetNext(SetNext(SetPrev(on, i, tail), i, NULL_IDX), tail, i)
  }

  function PushLevel(lv: PriceLevelNode, i: nat, qty: nat): PriceLevelNode {
    lv.(headOrder := if lv.tailOrder != NULL_IDX then lv.headOrder else i, tailOrder := i,
        totalQty := lv.totalQty + qty, orderCount := lv.orderCount + 1)
  }

  function UnlinkNodes(on: seq<OrderNode>, i: nat): seq<OrderNode>
    requires i < |on|
  {
    SetPrev(SetNext(on, on[i].prev, on[i].next), on[i].next, on[i].prev)
  }

  function UnlinkLevel(lv: PriceLevelNode, node: OrderNode): PriceLevelNode {
    lv.(headOrder := if node.prev != NULL_IDX then lv.headOrder else node.next,
        tailOrder := if node.next != NULL_IDX then lv.tailOrder else node.prev,
        totalQty := SatSub(lv.totalQty, node.order.qty), orderCount := SatSub(lv.orderCount, 1))
  }

  lemma QueuePush(on: seq<OrderNode>, q: seq<nat>, lv: PriceLevelNode, i: nat)
    requires QueueAt(on, q, lv) && i < |on| && i !in q && on[i].active
    ensures var on' := PushNodes(on, lv.tailOrder, i);
            && QueueAt(on', q + [i], PushLevel(lv, i, on[i].order.qty))
            && SameData(on, on')
            && forall j {:trigger on'[j]} :: 0 <= j < |on| && j != i && j !in q ==> on'[j] == on[j]
  {
    hide Linked, NoDup;
    var tail := lv.tailOrder;
    var on1 := SetPrev(on, i, tail);
    var on2 := SetNext(on1, i, NULL_IDX);
    var on' := SetNext(on2, tail, i);
    SetPrevIs(on, i, tail);
    SetNextIs(on1, i, NULL_IDX);
    SetNextIs(on2, tail, i);
    LinkedInsert(OrderPrev(on), OrderNext(on), q, |q|, i);
    assert Insert(q, |q|, i) == q + [i];
    LinkedSize(OrderPrev(on), OrderNext(on), q);
    SumSame(on, on', q);
    SumConcat(on', q, [i]);
    assert forall k :: 0 <= k < |q| ==> q[k] < |on| && on'[q[k]].active;
    assert q != [] ==> tail in q && tail == q[|q| - 1] < |on|;
    assert [i][1..] == [] && SumQty(on', [i]) == on[i].order.qty;
  }

  lemma LinkedSize(prev: seq<nat>, next: seq<nat>, q: seq<nat>)
    requires Linked(prev, next, q)
    ensures |prev| == |next| < NULL_IDX && forall k :: 0 <= k < |q| ==> q[k] < |prev|
  {
  }

  lemma QueueUnlink(on: seq<OrderNode>, q: seq<nat>, lv: PriceLevelNode, k: nat)
    requires QueueAt(on, q, lv) && k < |q|
    ensures var i := q[k];
            && i < |on| && on[i].prev == Before(q, k) && on[i].next == After(q, k)
            && var on' := UnlinkNodes(on, i);
            && QueueAt(on', Without(q, k), UnlinkLevel(lv, on[i]))
            && SameData(on, on')
            && forall j {:trigger on'[j]} :: 0 <= j < |on| && j !in q ==> on'[j] == on[j]
  {
    hide Linked, NoDup, SumQty;
    var i := q[k];
    LinkedSize(OrderPrev(on), OrderNext(on), q);
    LinkedRemove(OrderPrev(on), OrderNext(on), q, k);
    var on1 := SetNext(on, on[i].prev, on[i].next);
    var on' := SetPrev(on1, on[i].next, on[i].prev);
    SetNextIs(on, on[i].prev, on[i].next);
    SetPrevIs(on1, on[i].next, on[i].prev);
    var t := Without(q, k);
    SumSame(on, on', q);
    SumWithout(on', q, k);
    assert forall j :: 0 <= j < |t| ==> t[j] == q[if j < k then j else j + 1] && on'[t[j]].active;
    assert 0 < k ==> q[k - 1] in q;
    assert k + 1 < |q| ==> q[k + 1] in q;
  }

  lemma QueueFrame(on: seq<OrderNode>, on': seq<OrderNode>, q: seq<nat>, lv: PriceLevelNode, lv': PriceLevelNode)
    requires QueueAt(on, q, lv) && |on'| == |on|
    requires forall k {:trigger q[k]} :: 0 <= k < |q| ==> q[k] < |on| && on'[q[k]] == on[q[k]]
    requires lv' == lv.(prevLevel := lv'.prevLevel, nextLevel := lv'.nextLevel)
    ensures QueueAt(on', q, lv')
  {
    hide NoDup;
    LinkedFrame(OrderPrev(on), OrderNext(on), OrderPrev(on'), OrderNext(on'), q);
    SumSame(on, on', q);
  }

  // ----- The ladder of a side ---------------------------------------------------------------------

  function LevelPrev(ln: seq<PriceLevelNode>): seq<nat> { seq(|ln|, i requires 0 <= i < |ln| => ln[i].prevLevel) }

  function LevelNext(ln: seq<PriceLevelNode>): seq<nat> { seq(|ln|, i requires 0 <= i < |ln| => ln[i].nextLevel) }

  function SetPrevLevel(ln: seq<PriceLevelNode>, i: nat, v: nat): (r: seq<PriceLevelNode>)
    ensures |r| == |ln|
  {
    if i < |ln| then ln[i := ln[i].(prevLevel := v)] else ln
  }

  function SetNextLevel(ln: seq<PriceLevelNode>, i: nat, v: nat): (r: seq<PriceLevelNode>)
    ensures |r| == |ln|
  {
    if i < |ln| then ln[i := ln[i].(nextLevel := v)] else ln
  }

  // Same levels up to their ladder links.
  ghost predicate SameLevels(ln: seq<PriceLevelNode>, ln': seq<PriceLevelNode>) {
    |ln'| == |ln| && forall i {:trigger ln'[i]} {:trigger ln[i]} :: 0 <= i < |ln| ==>
      ln'[i] == ln[i].(prevLevel := ln'[i].prevLevel, nextLevel := ln'[i].nextLevel)
  }

  lemma SetPrevLevelIs(ln: seq<PriceLevelNode>, i: nat, v: nat)
    ensures LevelPrev(SetPrevLevel(ln, i, v)) == Put(LevelPrev(ln), i, v)
    ensures LevelNext(SetPrevLevel(ln, i, v)) == LevelNext(ln)
    ensures SameLevels(ln, SetPrevLevel(ln, i, v))
  {
  }

  lemma SetNextLevelIs(ln: seq<PriceLevelNode>, i: nat, v: nat)
    ensures LevelNext(SetNextLevel(ln, i, v)) == Put(LevelNext(ln), i, v)
    ensures LevelPrev(SetNextLevel(ln, i, v)) == LevelPrev(ln)
    ensures SameLevels(ln, SetNextLevel(ln, i, v))
  {
  }

  // Link level l between prev and next; take level l out from between its neighbours.
  function LinkLevels(ln: seq<PriceLevelNode>, prev: nat, l: nat, next: nat): (r: seq<PriceLevelNode>)
    ensures |r| == |ln|
  {
    SetPrevLevel(SetNextLevel(SetNextLevel(SetPrevLevel(ln, l, prev), l, next), prev, l), next, l)
  }

  function UnlinkLevels(ln: seq<PriceLevelNode>, l: nat): (r: seq<PriceLevelNode>)
    requires l < |ln|
    ensures |r| == |ln|
  {
    var t := SetPrevLevel(SetNextLevel(ln, ln[l].prevLevel, ln[l].nextLevel), ln[l].nextLevel, ln[l].prevLevel);
    SetNextLevel(SetPrevLevel(t, l, NULL_IDX), l, NULL_IDX)
  }

  lemma LadderLink(ln: seq<PriceLevelNode>, q: seq<nat>, k: nat, l: nat)
    requires Linked(LevelPrev(ln), LevelNext(ln), q) && k <= |q| && l < |ln| && l !in q
    ensures var ln' := LinkLevels(ln, Before(q, k), l, if k < |q| then q[k] else NULL_IDX);
            && Linked(LevelPrev(ln'), LevelNext(ln'), Insert(q, k, l))
            && SameLevels(ln, ln')
            && forall j {:trigger ln'[j]} :: 0 <= j < |ln| && j != l && j !in q ==> ln'[j] == ln[j]
  {
    hide Linked, NoDup;
    var p := Before(q, k);
    var n := if k < |q| then q[k] else NULL_IDX;
    var ln1 := SetPrevLevel(ln, l, p);
    var ln2 := SetNextLevel(ln1, l, n);
    var ln3 := SetNextLevel(ln2, p, l);
    SetPrevLevelIs(ln, l, p);
    SetNextLevelIs(ln1, l, n);
    SetNextLevelIs(ln2, p, l);
    SetPrevLevelIs(ln3, n, l);
    LinkedSize(LevelPrev(ln), LevelNext(ln), q);
    LinkedInsert(LevelPrev(ln), LevelNext(ln), q, k, l);
    assert 0 < k ==> q[k - 1] in q;
    assert k < |q| ==> q[k] in q;
  }

  lemma LadderUnlink(ln: seq<PriceLevelNode>, q: seq<nat>, k: nat)
    requires Linked(LevelPrev(ln), LevelNext(ln), q) && k < |q|
    ensures var l := q[k];
            && l < |ln| && ln[l].prevLevel == Before(q, k) && ln[l].nextLevel == After(q, k)
            && var ln' := UnlinkLevels(ln, l);
            && Linked(LevelPrev(ln'), LevelNext(ln'), Without(q, k))
            && SameLevels(ln, ln')
            && forall j {:trigger ln'[j]} :: 0 <= j < |ln| && j !in q ==> ln'[j] == ln[j]
  {
    hide Linked, NoDup;
    var l := q[k];
    LinkedSize(LevelPrev(ln), LevelNext(ln), q);
    LinkedRemove(LevelPrev(ln), LevelNext(ln), q, k);
    var ln1 := SetNextLevel(ln, ln[l].prevLevel, ln[l].nextLevel);
    var ln2 := SetPrevLevel(ln1, ln[l].nextLevel, ln[l].prevLevel);
    var ln3 := SetPrevLevel(ln2, l, NULL_IDX);
    SetNextLevelIs(ln, ln[l].prevLevel, ln[l].nextLevel);
    SetPrevLevelIs(ln1, ln[l].nextLevel, ln[l].prevLevel);
    SetPrevLevelIs(ln2, l, NULL_IDX);
    SetNextLevelIs(ln3, l, NULL_IDX);
    var ln' := SetNextLevel(ln3, l, NULL_IDX);
    assert l !in Without(q, k) by { LinkedNoDup(LevelPrev(ln), LevelNext(ln), q); RemoveNoDup(q, k); }
    LinkedFrame(LevelPrev(ln2), LevelNext(ln2), LevelPrev(ln'), LevelNext(ln'), Without(q, k));
    assert 0 < k ==> q[k - 1] in q;
    assert k + 1 < |q| ==> q[k + 1] in q;
    assert l in q;
  }

  lemma LinkedNoDup(prev: seq<nat>, next: seq<nat>, q: seq<nat>)
    requires Linked(prev, next, q)
    ensures NoDup(q)
  {
  }
}
