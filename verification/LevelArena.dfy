/** The arena of price levels, with the order-queue operations of a level. */
module LevelStore {
  import opened Types
  import opened Arena
  import opened Links

  class LevelArena {
    const nodes: array<PriceLevelNode>
    var freeHead: nat

    ghost var stack: seq<nat>
    ghost var depth: seq<nat>

    ghost predicate Valid()
      reads this, nodes
    {
      OnStack(LevelNextFree(nodes[..]), LevelActive(nodes[..]), freeHead, stack, depth)
    }

    constructor (capacity: nat)
      requires 0 < capacity < NULL_IDX
      ensures Valid() && fresh(nodes) && nodes.Length == capacity == |stack|
      ensures freeHead == 0 && forall k :: 0 <= k < capacity ==> stack[k] == capacity - 1 - k
      ensures forall i :: 0 <= i < nodes.Length ==> !nodes[i].active
    {
      var a := new PriceLevelNode[capacity](i =>
        FREE_LEVEL.(nextFree := if 0 <= i && i + 1 < capacity then i + 1 else NULL_IDX));
      nodes := a;
      freeHead := 0;
      stack := seq(capacity, k requires 0 <= k < capacity => capacity - 1 - k);
      depth := seq(capacity, i requires 0 <= i < capacity => capacity - 1 - i);
    }

    method Allocate(price: nat) returns (r: Result<nat>)
      requires Valid()
      modifies this, nodes
      ensures Valid()
      ensures r == if old(stack) == [] then Err(EngineFull) else Ok(Last(old(stack)))
      ensures if r.Ok? then
                && stack == old(stack)[..|old(stack)| - 1] && r.value < nodes.Length && !old(nodes[..])[r.value].active
                && nodes[..] == old(nodes[..])[r.value := OpenLevel(price)]
              else unchanged(this, nodes)
    {
      hide OnStack;
      ghost var ln := nodes[..];
      EmptyStack(LevelNextFree(ln), LevelActive(ln), freeHead, stack, depth);
      if freeHead == NULL_IDX {
        return Err(EngineFull);
      }
      var idx := freeHead;
      StackPop(LevelNextFree(ln), LevelActive(ln), stack, depth, NULL_IDX);
      freeHead := nodes[idx].nextFree;
      nodes[idx] := OpenLevel(price);
      stack := stack[..|stack| - 1];
      assert nodes[..] == ln[idx := OpenLevel(price)];
      assert LevelNextFree(nodes[..]) == LevelNextFree(ln)[idx := NULL_IDX]
             && LevelActive(nodes[..]) == LevelActive(ln)[idx := true];
      r := Ok(idx);
    }

    method Deallocate(idx: nat)
      requires Valid() && (idx < nodes.Length ==> nodes[idx].active)
      modifies this, nodes
      ensures Valid()
      ensures if idx < nodes.Length then
                && stack == old(stack) + [idx] && freeHead == idx
                && nodes[..] == old(nodes[..])[idx := Retired(old(nodes[..])[idx], old(freeHead))]
              else unchanged(this, nodes)
    {
      if idx == NULL_IDX || idx >= nodes.Length {
        return;
      }
      hide OnStack;
      ghost var ln := nodes[..];
      EmptyStack(LevelNextFree(ln), LevelActive(ln), freeHead, stack, depth);
      StackPush(LevelNextFree(ln), LevelActive(ln), stack, depth, idx);
      nodes[idx] := nodes[idx].(active := false, headOrder := NULL_IDX, tailOrder := NULL_IDX, prevLevel := NULL_IDX,
          nextLevel := NULL_IDX);
      nodes[idx] := nodes[idx].(totalQty := 0, orderCount := 0);
      nodes[idx] := nodes[idx].(nextFree := freeHead);
      ghost var node := Retired(ln[idx], freeHead);
      assert nodes[..] == ln[idx := node];
      assert LevelNextFree(nodes[..]) == LevelNextFree(ln)[idx := freeHead]
             && LevelActive(nodes[..]) == LevelActive(ln)[idx := false];
      freeHead := idx;
      depth := depth[idx := |stack|];
      stack := stack + [idx];
    }

    // Take `qty` off the total of a level.
    method Fill(l: nat, qty: nat)
      requires Valid() && l < nodes.Length && qty <= nodes[l].totalQty
      modifies nodes
      ensures Valid()
      ensures nodes[..] == old(nodes[..])[l := old(nodes[l]).(totalQty := old(nodes[l]).totalQty - qty)]
    {
      hide OnStack;
      ghost var ln := nodes[..];
      nodes[l] := nodes[l].(totalQty := nodes[l].totalQty - qty);
      assert nodes[..] == ln[l := ln[l].(totalQty := ln[l].totalQty - qty)];
      SameFree(ln, nodes[..]);
    }

    // ----- The order queue of level l ---------------------------------------------------------------

    method PushOrder(l: nat, i: nat, orders: OrderArena)
      requires Valid() && orders.Valid()
      requires l < nodes.Length && i < orders.nodes.Length < NULL_IDX && orders.nodes[i].active
      requires var t := nodes[l].tailOrder; t == NULL_IDX || (t < orders.nodes.Length && orders.nodes[t].active)
      modifies nodes, orders.nodes
      ensures Valid() && orders.Valid()
      ensures orders.nodes[..] == PushNodes(old(orders.nodes[..]), old(nodes[l]).tailOrder, i)
      ensures nodes[..] == old(nodes[..])[l := PushLevel(old(nodes[l]), i, old(orders.nodes[i]).order.qty)]
    {
      hide OnStack;
      var a := orders.nodes;
      ghost var on, ln := a[..], nodes[..];
      a[i] := a[i].(prev := nodes[l].tailOrder);
      a[i] := a[i].(next := NULL_IDX);
      if nodes[l].tailOrder != NULL_IDX {
        a[nodes[l].tailOrder] := a[nodes[l].tailOrder].(next := i);
      } else {
        nodes[l] := nodes[l].(headOrder := i);
      }
      nodes[l] := nodes[l].(tailOrder := i);
      nodes[l] := nodes[l].(totalQty := nodes[l].totalQty + a[i].order.qty);
      nodes[l] := nodes[l].(orderCount := nodes[l].orderCount + 1);
      SameFree(ln, nodes[..]);
      SameFreeOrders(orders, on, a[..]);
    }

    // Take the oldest order off the queue.
    method PopOrder(l: nat, orders: OrderArena) returns (r: Option<nat>)
      requires Valid() && orders.Valid() && l < nodes.Length && orders.nodes.Length < NULL_IDX
      requires var h := nodes[l].headOrder;
               h == NULL_IDX || (h < orders.nodes.Length && orders.nodes[h].active && orders.nodes[h].prev == NULL_IDX
                                 && Linkable(orders.nodes[..], orders.nodes[h].next))
      modifies nodes, orders.nodes
      ensures Valid() && orders.Valid()
      ensures r == if old(nodes[l]).headOrder == NULL_IDX then None else Some(old(nodes[l]).headOrder)
      ensures if r.Some? then
                && orders.nodes[..] == UnlinkNodes(old(orders.nodes[..]), r.value)
                && nodes[..] == old(nodes[..])[l := UnlinkLevel(old(nodes[l]), old(orders.nodes[..])[r.value])]
              else unchanged(nodes, orders.nodes)
    {
      if nodes[l].headOrder == NULL_IDX {
        return None;
      }
      hide OnStack;
      var a := orders.nodes;
      ghost var on, ln := a[..], nodes[..];
      var head := nodes[l].headOrder;
      var next := a[head].next;
      nodes[l] := nodes[l].(headOrder := next);
      if next != NULL_IDX {
        a[next] := a[next].(prev := NULL_IDX);
      } else {
        nodes[l] := nodes[l].(tailOrder := NULL_IDX);
      }
      nodes[l] := nodes[l].(totalQty := SatSub(nodes[l].totalQty, a[head].order.qty));
      nodes[l] := nodes[l].(orderCount := SatSub(nodes[l].orderCount, 1));
      SameFree(ln, nodes[..]);
      SameFreeOrders(orders, on, a[..]);
      r := Some(head);
    }

    // Take order i out of the queue, wherever it stands.
    method UnlinkOrder(l: nat, i: nat, orders: OrderArena)
      requires Valid() && orders.Valid()
      requires l < nodes.Length && i < orders.nodes.Length < NULL_IDX && orders.nodes[i].active
      requires Linkable(orders.nodes[..], orders.nodes[i].prev) && Linkable(orders.nodes[..], orders.nodes[i].next)
      modifies nodes, orders.nodes
      ensures Valid() && orders.Valid()
      ensures orders.nodes[..] == UnlinkNodes(old(orders.nodes[..]), i)
      ensures nodes[..] == old(nodes[..])[l := UnlinkLevel(old(nodes[l]), old(orders.nodes[i]))]
    {
      hide OnStack;
      var a := orders.nodes;
      ghost var on, ln := a[..], nodes[..];
      var prev, next := a[i].prev, a[i].next;
      if prev != NULL_IDX {
        a[prev] := a[prev].(next := next);
      } else {
        nodes[l] := nodes[l].(headOrder := next);
      }
      if next != NULL_IDX {
        a[next] := a[next].(prev := prev);
      } else {
        nodes[l] := nodes[l].(tailOrder := prev);
      }
      nodes[l] := nodes[l].(totalQty := SatSub(nodes[l].totalQty, a[i].order.qty));
      nodes[l] := nodes[l].(orderCount := SatSub(nodes[l].orderCount, 1));
      SameFree(ln, nodes[..]);
      SameFreeOrders(orders, on, a[..]);
    }
  }

  // A link that is null or leads to an active node.
  ghost predicate Linkable(on: seq<OrderNode>, i: nat) {
    i == NULL_IDX || (i < |on| && on[i].active)
  }

  lemma SameFree(ln: seq<PriceLevelNode>, ln': seq<PriceLevelNode>)
    requires |ln'| == |ln|
    requires forall i :: 0 <= i < |ln| ==> ln'[i].nextFree == ln[i].nextFree && ln'[i].active == ln[i].active
    ensures LevelNextFree(ln') == LevelNextFree(ln) && LevelActive(ln') == LevelActive(ln)
  {
  }

  // Changing the links of active orders keeps the free list.
  lemma SameFreeOrders(a: OrderArena, on: seq<OrderNode>, on': seq<OrderNode>)
    requires a.FreeOk(on) && |on'| == |on|
    requires forall i {:trigger on'[i]} :: 0 <= i < |on| ==>
             on'[i].active == on[i].active && (!on[i].active ==> on'[i].next == on[i].next)
    ensures a.FreeOk(on')
  {
    assert OrderActive(on') == OrderActive(on);
    StackFrame(OrderNext(on), OrderActive(on), OrderNext(on'), a.freeHead, a.stack, a.depth);
  }

  function OpenLevel(price: nat): PriceLevelNode {
    PriceLevelNode(price, NULL_IDX, NULL_IDX, NULL_IDX, NULL_IDX, 0, 0, NULL_IDX, true)
  }
}
