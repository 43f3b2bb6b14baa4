/** The two preallocated arenas of src/book.rs and the intrusive lists threaded through them: a free
    list in each, a FIFO of orders in every price level, and a ladder of price levels per side. */
module Arena {
  import opened Types

  datatype OrderNode = OrderNode(order: Order, prev: nat, next: nat, clientId: nat, active: bool)

  datatype PriceLevelNode = PriceLevelNode(
    price: nat,
    headOrder: nat,
    tailOrder: nat,
    prevLevel: nat,  // next better level
    nextLevel: nat,  // next worse level
    totalQty: nat,
    orderCount: nat,
    nextFree: nat,
    active: bool)

  const DEFAULT_ORDER := Order(0, 0, 0, 0, 0, 0, 0, 0, 0x4F42, (0, 0))
  const FREE_ORDER := OrderNode(DEFAULT_ORDER, NULL_IDX, NULL_IDX, 0, false)
  const FREE_LEVEL := PriceLevelNode(0, NULL_IDX, NULL_IDX, NULL_IDX, NULL_IDX, 0, 0, NULL_IDX, false)

  ghost predicate NoDup(s: seq<nat>) {
    forall i, j :: 0 <= i < j < |s| ==> s[i] != s[j]
  }

  // The element after position k of a list, and before it; NULL_IDX at the ends.
  function After(s: seq<nat>, k: nat): nat { if k + 1 < |s| then s[k + 1] else NULL_IDX }

  function Before(s: seq<nat>, k: nat): nat { if 0 < k <= |s| then s[k - 1] else NULL_IDX }

  function First(s: seq<nat>): nat { if s == [] then NULL_IDX else s[0] }

  function Last(s: seq<nat>): nat { if s == [] then NULL_IDX else s[|s| - 1] }

  function Without(s: seq<nat>, k: nat): seq<nat>
    requires k < |s|
  {
    s[..k] + s[k + 1..]
  }

  // Distinct indices below n that miss one of them are fewer than n.
  lemma MissingOne(s: seq<nat>, n: nat, x: nat)
    requires NoDup(s) && x < n && x !in s
    requires forall i :: 0 <= i < |s| ==> s[i] < n
    ensures |s| < n
  {
    var t := s + [x];
    DistinctSize(t);
    RangeSize(n);
    SubsetSize(Elements(t), Range(n));
  }

  ghost function Range(n: nat): set<nat> { if n == 0 then {} else Range(n - 1) + {n - 1} }

  ghost function Elements(s: seq<nat>): set<nat> { if s == [] then {} else {s[0]} + Elements(s[1..]) }

  lemma {:induction false} RangeSize(n: nat)
    ensures |Range(n)| == n && forall i :: i in Range(n) <==> 0 <= i < n
  {
    if n > 0 { RangeSize(n - 1); }
  }

  lemma {:induction false} DistinctSize(s: seq<nat>)
    requires NoDup(s)
    ensures |Elements(s)| == |s| && forall x :: x in Elements(s) <==> x in s
  {
    if s != [] { DistinctSize(s[1..]); }
  }

  lemma {:induction false} SubsetSize(a: set<nat>, b: set<nat>)
    requires a <= b
    ensures |a| <= |b|
  {
    if a != {} {
      var x :| x in a;
      SubsetSize(a - {x}, b - {x});
    }
  }

  // ----- Free lists -------------------------------------------------------------------------------

  // The free list is a stack whose top is the head. `depth` gives the place of every free node on it,
  // so exactly the inactive nodes are on the stack, each once.
  ghost predicate OnStack(next: seq<nat>, active: seq<bool>, head: nat, stack: seq<nat>, depth: seq<nat>) {
    && |active| == |next| == |depth| < NULL_IDX
    && head == Last(stack)
    && (forall k {:trigger stack[k]} :: 0 <= k < |stack| ==>
          stack[k] < |next| && !active[stack[k]] && depth[stack[k]] == k)
    && (forall k {:trigger next[stack[k]]} :: 0 <= k < |stack| ==> next[stack[k]] == Before(stack, k))
    && (forall i {:trigger active[i]} :: 0 <= i < |next| && !active[i] ==> depth[i] < |stack| && stack[depth[i]] == i)
  }

  // The nodes below the top of the stack, and the free nodes other than the top.
  lemma BelowTop(next: seq<nat>, active: seq<bool>, stack: seq<nat>, depth: seq<nat>, k: nat)
    requires OnStack(next, active, Last(stack), stack, depth) && k < |stack| - 1
    ensures var t := stack[..|stack| - 1];
            && t[k] == stack[k] && t[k] < |next| && t[k] != Last(stack) && !active[t[k]] && depth[t[k]] == k
            && next[t[k]] == Before(t, k)
  {
    assert depth[stack[k]] == k && depth[stack[|stack| - 1]] == |stack| - 1;
    assert next[stack[k]] == Before(stack, k);
  }

  lemma NotTop(next: seq<nat>, active: seq<bool>, stack: seq<nat>, depth: seq<nat>, j: nat)
    requires OnStack(next, active, Last(stack), stack, depth) && j < |next| && !active[j]
    ensures stack != [] && (j != Last(stack) ==> depth[j] < |stack| - 1 && stack[..|stack| - 1][depth[j]] == j)
  {
    assert stack[depth[j]] == j;
  }

  lemma TopNext(next: seq<nat>, active: seq<bool>, stack: seq<nat>, depth: seq<nat>)
    requires OnStack(next, active, Last(stack), stack, depth) && stack != []
    ensures Last(stack) < |next| && next[Last(stack)] == Last(stack[..|stack| - 1])
    ensures |active| == |next| == |depth| < NULL_IDX
  {
    assert next[stack[|stack| - 1]] == Before(stack, |stack| - 1);
  }

  lemma StackPop(next: seq<nat>, active: seq<bool>, stack: seq<nat>, depth: seq<nat>, v: nat)
    requires OnStack(next, active, Last(stack), stack, depth) && stack != []
    ensures var i := Last(stack);
            var t := stack[..|stack| - 1];
            i < |next| && next[i] == Last(t) && OnStack(next[i := v], active[i := true], next[i], t, depth)
  {
    TopNext(next, active, stack, depth);
    var i := Last(stack);
    var t := stack[..|stack| - 1];
    assert OnStack(next[i := v], active[i := true], next[i], t, depth) by {
      hide Before, Last;
      forall k | 0 <= k < |t|
        ensures t[k] < |next| && t[k] != i && !active[t[k]] && depth[t[k]] == k && next[t[k]] == Before(t, k)
      {
        BelowTop(next, active, stack, depth, k);
      }
      forall j | 0 <= j < |next| && j != i && !active[j]
        ensures depth[j] < |t| && t[depth[j]] == j
      {
        NotTop(next, active, stack, depth, j);
      }
    }
  }

  lemma StackPush(next: seq<nat>, active: seq<bool>, stack: seq<nat>, depth: seq<nat>, i: nat)
    requires OnStack(next, active, Last(stack), stack, depth) && i < |next| && active[i]
    ensures OnStack(next[i := Last(stack)], active[i := false], i, stack + [i], depth[i := |stack|])
    ensures |stack| < |next|
  {
    MissingOne(stack, |next|, i);
  }

  function OrderNext(on: seq<OrderNode>): seq<nat> { seq(|on|, i requires 0 <= i < |on| => on[i].next) }

  function OrderActive(on: seq<OrderNode>): seq<bool> { seq(|on|, i requires 0 <= i < |on| => on[i].active) }

  function LevelNextFree(ln: seq<PriceLevelNode>): seq<nat> { seq(|ln|, i requires 0 <= i < |ln| => ln[i].nextFree) }

  function LevelActive(ln: seq<PriceLevelNode>): seq<bool> { seq(|ln|, i requires 0 <= i < |ln| => ln[i].active) }

  function Retired(lv: PriceLevelNode, head: nat): PriceLevelNode {
    lv.(active := false, headOrder := NULL_IDX, tailOrder := NULL_IDX, prevLevel := NULL_IDX, nextLevel := NULL_IDX,
        totalQty := 0, orderCount := 0, nextFree := head)
  }

  function Filled(node: OrderNode, qty: nat): OrderNode
    requires qty <= node.order.qty
  {
    node.(order := node.order.(qty := node.order.qty - qty))
  }

  // ----- Orders -----------------------------------------------------------------------------------

  class OrderArena {
    const nodes: array<OrderNode>
    var freeHead: nat
    var activeCount: nat
    const capacity: nat

    ghost var stack: seq<nat>
    ghost var depth: seq<nat>

    ghost predicate Valid()
      reads this, nodes
    {
      && FreeOk(nodes[..])
      && capacity == nodes.Length
      && activeCount + |stack| == capacity
    }

    // The free list only looks at the nodes' links and active flags.
    ghost predicate FreeOk(on: seq<OrderNode>)
      reads this
    {
      OnStack(OrderNext(on), OrderActive(on), freeHead, stack, depth)
    }

    constructor (capacity: nat)
      requires 0 < capacity < NULL_IDX
      ensures Valid() && fresh(nodes) && this.capacity == capacity
      ensures freeHead == 0 && |stack| == capacity && forall k :: 0 <= k < capacity ==> stack[k] == capacity - 1 - k
      ensures activeCount == 0 && forall i :: 0 <= i < nodes.Length ==> !nodes[i].active
    {
      var a := new OrderNode[capacity](i =>
        FREE_ORDER.(next := if 0 <= i && i + 1 < capacity then i + 1 else NULL_IDX));
      nodes := a;
      freeHead, activeCount := 0, 0;
      this.capacity := capacity;
      stack := seq(capacity, k requires 0 <= k < capacity => capacity - 1 - k);
      depth := seq(capacity, i requires 0 <= i < capacity => capacity - 1 - i);
    }

    method Allocate(order: Order, clientId: nat) returns (r: Result<nat>)
      requires Valid()
      modifies this, nodes
      ensures Valid()
      ensures r == if old(stack) == [] then Err(EngineFull) else Ok(Last(old(stack)))
      ensures if r.Ok? then
                && stack == old(stack)[..|old(stack)| - 1] && r.value < nodes.Length && !old(nodes[..])[r.value].active
                && nodes[..] == old(nodes[..])[r.value := OrderNode(order, NULL_IDX, NULL_IDX, clientId, true)]
              else unchanged(this, nodes)
    {
      hide OnStack;
      ghost var on := nodes[..];
      EmptyStack(OrderNext(on), OrderActive(on), freeHead, stack, depth);
      if freeHead == NULL_IDX {
        return Err(EngineFull);
      }
      var idx := freeHead;
      StackPop(OrderNext(on), OrderActive(on), stack, depth, NULL_IDX);
      freeHead := nodes[idx].next;
      nodes[idx] := OrderNode(order, NULL_IDX, NULL_IDX, clientId, true);
      activeCount := activeCount + 1;
      stack := stack[..|stack| - 1];
      assert nodes[..] == on[idx := OrderNode(order, NULL_IDX, NULL_IDX, clientId, true)];
      assert OrderNext(nodes[..]) == OrderNext(on)[idx := NULL_IDX]
             && OrderActive(nodes[..]) == OrderActive(on)[idx := true];
      r := Ok(idx);
    }

    // Take `qty` off the quantity of an order.
    method Fill(i: nat, qty: nat)
      requires Valid() && i < nodes.Length && qty <= nodes[i].order.qty
      modifies nodes
      ensures Valid()
      ensures nodes[..] == old(nodes[..])[i := Filled(old(nodes[i]), qty)]
    {
      hide OnStack;
      ghost var on := nodes[..];
      nodes[i] := nodes[i].(order := nodes[i].order.(qty := nodes[i].order.qty - qty));
      assert nodes[..] == on[i := Filled(on[i], qty)];
      assert OrderNext(nodes[..]) == OrderNext(on) && OrderActive(nodes[..]) == OrderActive(on);
    }

    method Deallocate(idx: nat)
      requires Valid() && (idx < nodes.Length ==> nodes[idx].active)
      modifies this, nodes
      ensures Valid()
      ensures if idx < nodes.Length then
                && stack == old(stack) + [idx] && freeHead == idx
                && nodes[..] == old(nodes[..])[idx :=
                     old(nodes[..])[idx].(active := false, next := old(freeHead), prev := NULL_IDX)]
              else unchanged(this, nodes)
    {
      if idx == NULL_IDX || idx >= nodes.Length {
        return;
      }
      hide OnStack;
      ghost var on := nodes[..];
      EmptyStack(OrderNext(on), OrderActive(on), freeHead, stack, depth);
      StackPush(OrderNext(on), OrderActive(on), stack, depth, idx);
      nodes[idx] := nodes[idx].(active := false);
      nodes[idx] := nodes[idx].(next := freeHead);
      nodes[idx] := nodes[idx].(prev := NULL_IDX);
      ghost var node := on[idx].(active := false, next := freeHead, prev := NULL_IDX);
      assert nodes[..] == on[idx := node];
      assert OrderNext(nodes[..]) == OrderNext(on)[idx := freeHead]
             && OrderActive(nodes[..]) == OrderActive(on)[idx := false];
      freeHead := idx;
      activeCount := SatSub(activeCount, 1);
      depth := depth[idx := |stack|];
      stack := stack + [idx];
    }
  }

  // The free list does not depend on the links of active nodes.
  lemma StackFrame(next: seq<nat>, active: seq<bool>, next': seq<nat>, head: nat, stack: seq<nat>, depth: seq<nat>)
    requires OnStack(next, active, head, stack, depth) && |next'| == |next|
    requires forall i {:trigger next'[i]} :: 0 <= i < |next| && !active[i] ==> next'[i] == next[i]
    ensures OnStack(next', active, head, stack, depth)
  {
  }

  lemma EmptyStack(next: seq<nat>, active: seq<bool>, head: nat, stack: seq<nat>, depth: seq<nat>)
    requires OnStack(next, active, head, stack, depth)
    ensures head == Last(stack) && (head == NULL_IDX <==> stack == [])
    ensures stack != [] ==> head < |next| && !active[head]
    ensures |depth| == |next|
  {
  }
}
