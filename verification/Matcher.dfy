/** The price-time matching function that the order book of src/book.rs implements, stated on plain
    sequences: a side of the book is a sequence of price levels, best price first, and a level is a
    sequence of resting orders, oldest first. */
module Matcher {
  import opened Types

  const MAX_ARENA_ORDERS: nat := 131_072
  const MAX_PRICE_LEVELS: nat := 4_096

  datatype Resting = Resting(order: Order, clientId: nat)

  datatype Level = Level(price: nat, orders: seq<Resting>)

  type ClientKey = (nat, nat)  // (user id, client order id)

  // `leaked` counts order slots that were allocated but never queued (see Rest).
  datatype Book = Book(
    bids: seq<Level>,
    asks: seq<Level>,
    clients: map<ClientKey, nat>,
    leaked: nat,
    tradeSeq: nat,
    orderSeq: nat)

  datatype Outcome = Outcome(book: Book, result: Result<ExecutionReport>, trades: seq<Trade>)

  function KeyOf(r: Resting): ClientKey { (r.order.userId, r.order.clientOrderId) }

  // ----- Matching one level and one side ---------------------------------------------------------

  // What is left of the incoming quantity and of the queue, and the trades made on the way.
  datatype Fill = Fill(left: nat, queue: seq<Resting>, clients: map<ClientKey, nat>, trades: seq<Trade>, stp: bool)

  function MakeTrade(o: Order, clientId: nat, maker: Resting, qty: nat, matchId: nat): Trade {
    Trade(matchId, maker.order.id, o.id, maker.order.clientOrderId, o.clientOrderId,
          maker.order.userId, o.userId, maker.clientId, clientId,
          if o.side == 0 then o.userId else maker.order.userId,
          if o.side == 0 then maker.order.userId else o.userId,
          maker.order.side, o.symbolId, maker.order.price, qty)
  }

  function Reduced(r: Resting, qty: nat): Resting
    requires qty <= r.order.qty
  {
    r.(order := r.order.(qty := r.order.qty - qty))
  }

  function MatchQueue(o: Order, qty: nat, clientId: nat, q: seq<Resting>, clients: map<ClientKey, nat>,
                      tid: nat): (f: Fill)
    ensures f.left <= qty
    ensures f.stp ==> f.queue != []
    ensures f.queue != [] && !f.stp ==> f.left == 0
    decreases |q|
  {
    if qty == 0 || q == [] then Fill(qty, q, clients, [], false)
    else if q[0].order.userId == o.userId then Fill(qty, q, clients, [], true)
    else
      var fill := Min(qty, q[0].order.qty);
      var trade := MakeTrade(o, clientId, q[0], fill, tid);
      if q[0].order.qty == fill then
        var f := MatchQueue(o, qty - fill, clientId, q[1..], clients - {KeyOf(q[0])}, tid + 1);
        f.(trades := [trade] + f.trades)
      else
        Fill(0, [Reduced(q[0], fill)] + q[1..], clients, [trade], false)
  }

  // May an incoming order trade at this resting price?
  predicate Crosses(o: Order, price: nat) {
    match o.Kind()
    case Limit => if o.IsSell() then price >= o.price else price <= o.price
    case Market => o.price > 0 ==> if o.IsSell() then price >= o.price else price <= o.price
    case _ => true
  }

  datatype Sweep = Sweep(left: nat, levels: seq<Level>, clients: map<ClientKey, nat>, trades: seq<Trade>, stp: bool)

  function MatchSide(o: Order, qty: nat, clientId: nat, levels: seq<Level>, clients: map<ClientKey, nat>,
                     tid: nat): (s: Sweep)
    ensures s.left <= qty && |s.levels| <= |levels|
    ensures s.left > 0 && !s.stp && s.levels != [] ==> !Crosses(o, s.levels[0].price)
    decreases |levels|
  {
    if qty == 0 || levels == [] || !Crosses(o, levels[0].price) then Sweep(qty, levels, clients, [], false)
    else
      var f := MatchQueue(o, qty, clientId, levels[0].orders, clients, tid);
      if f.queue == [] then
        var s := MatchSide(o, f.left, clientId, levels[1..], f.clients, tid + |f.trades|);
        s.(trades := f.trades + s.trades)
      else
        Sweep(f.left, [levels[0].(orders := f.queue)] + levels[1..], f.clients, f.trades, f.stp)
  }

  // ----- Resting ----------------------------------------------------------------------------------

  predicate Better(isSell: bool, p: nat, q: nat) { if isSell then p < q else p > q }

  // Join the level at this price, or open a level at its place in the ladder.
  function Place(levels: seq<Level>, r: Resting, isSell: bool): seq<Level>
    decreases |levels|
  {
    if levels == [] || Better(isSell, r.order.price, levels[0].price) then [Level(r.order.price, [r])] + levels
    else if levels[0].price == r.order.price then [levels[0].(orders := levels[0].orders + [r])] + levels[1..]
    else [levels[0]] + Place(levels[1..], r, isSell)
  }

  predicate HasPrice(levels: seq<Level>, price: nat) {
    exists i :: 0 <= i < |levels| && levels[i].price == price
  }

  function Flat(levels: seq<Level>): seq<Resting> {
    if levels == [] then [] else levels[0].orders + Flat(levels[1..])
  }

  function OrderCount(b: Book): nat { |Flat(b.bids)| + |Flat(b.asks)| }

  function LevelCount(b: Book): nat { |b.bids| + |b.asks| }

  // An order slot is taken before a level slot; when no level slot is left the order slot is lost.
  function Rest(b: Book, r: Resting): (Book, Result<()>) {
    var levels := if r.order.IsSell() then b.asks else b.bids;
    if OrderCount(b) + b.leaked >= MAX_ARENA_ORDERS then (b, Err(EngineFull))
    else if !HasPrice(levels, r.order.price) && LevelCount(b) >= MAX_PRICE_LEVELS then
      (b.(leaked := b.leaked + 1), Err(EngineFull))
    else
      var placed := Place(levels, r, r.order.IsSell());
      var clients := b.clients[KeyOf(r) := r.order.id];
      (if r.order.IsSell() then b.(asks := placed, clients := clients)
       else b.(bids := placed, clients := clients),
       Ok(()))
  }

  // ----- Cancelling -------------------------------------------------------------------------------

  function FindIn(q: seq<Resting>, id: nat): (r: Option<Resting>)
    ensures r.Some? ==> r.value in q && r.value.order.id == id
    ensures r.None? ==> forall x :: x in q ==> x.order.id != id
  {
    if q == [] then None
    else if q[0].order.id == id then Some(q[0])
    else FindIn(q[1..], id)
  }

  function Orders(b: Book): seq<Resting> { Flat(b.bids) + Flat(b.asks) }

  function DeleteFrom(q: seq<Resting>, id: nat): (r: seq<Resting>)
    ensures |r| == if FindIn(q, id).Some? then |q| - 1 else |q|
  {
    if q == [] then []
    else if q[0].order.id == id then q[1..]
    else [q[0]] + DeleteFrom(q[1..], id)
  }

  // Take the order out of its level, and an emptied level out of the ladder.
  function Delete(levels: seq<Level>, id: nat): seq<Level> {
    if levels == [] then []
    else if FindIn(levels[0].orders, id).Some? then
      var q := DeleteFrom(levels[0].orders, id);
      if q == [] then levels[1..] else [levels[0].(orders := q)] + levels[1..]
    else [levels[0]] + Delete(levels[1..], id)
  }

  // An order id is looked up first; failing that, the requester's own client order id.
  function Locate(b: Book, userId: nat, id: nat): Option<Resting> {
    var r := FindIn(Orders(b), id);
    if r.Some? then r
    else if (userId, id) in b.clients then FindIn(Orders(b), b.clients[(userId, id)])
    else None
  }

  function CancelOrder(b: Book, userId: nat, id: nat): (Book, Result<Order>) {
    match Locate(b, userId, id)
    case None => (b, Err(OrderNotFound))
    case Some(r) =>
      if r.order.userId != userId then (b, Err(Unauthorized))
      else
        (b.(bids := Delete(b.bids, r.order.id), asks := Delete(b.asks, r.order.id), clients := b.clients - {KeyOf(r)}),
         Ok(r.order))
  }

  // ----- Processing -------------------------------------------------------------------------------

  function Stamp(b: Book, o: Order): Order {
    if o.id == 0 then o.(id := b.orderSeq) else o
  }

  function StampedSeq(b: Book, o: Order): nat {
    if o.id == 0 then b.orderSeq + 1 else Max(b.orderSeq, o.id + 1)
  }

  function Swept(b: Book, o: Order, clientId: nat): Sweep {
    MatchSide(o, o.qty, clientId, if o.IsSell() then b.bids else b.asks, b.clients, b.tradeSeq)
  }

  function AfterSweep(b: Book, isSell: bool, s: Sweep): Book {
    var c := b.(clients := s.clients, tradeSeq := b.tradeSeq + |s.trades|);
    if isSell then c.(bids := s.levels) else c.(asks := s.levels)
  }

  function Submit(b: Book, o: Order, clientId: nat): Outcome {
    var stamped := Stamp(b, o);
    var s := Swept(b, stamped, clientId);
    var swept := AfterSweep(b.(orderSeq := StampedSeq(b, o)), o.IsSell(), s);
    var report := ExecutionReport(o.qty - s.left, s.left, s.stp);
    if s.stp || s.left == 0 || o.Kind() != Limit then Outcome(swept, Ok(report), s.trades)
    else
      var (rested, r) := Rest(swept, Resting(stamped.(qty := s.left), clientId));
      Outcome(rested, if r.Ok? then Ok(report) else Err(r.error), s.trades)
  }

  function Process(b: Book, o: Order, clientId: nat): Outcome {
    if o.Kind() == OrderType.Cancel then
      var (c, r) := CancelOrder(b, o.userId, if o.id != 0 then o.id else o.clientOrderId);
      Outcome(c, if r.Ok? then Ok(ExecutionReport(0, r.value.qty, false)) else Err(r.error), [])
    else Submit(b, o, clientId)
  }

  // ----- Well-formed books ------------------------------------------------------------------------

  ghost predicate QueueOk(q: seq<Resting>, price: nat, isSell: bool) {
    forall r :: r in q ==>
        r.order.price == price && r.order.qty > 0 && r.order.IsSell() == isSell && r.order.Kind() == Limit
  }

  ghost predicate SideOk(levels: seq<Level>, isSell: bool) {
    && (forall i :: 0 <= i < |levels| ==> levels[i].orders != [] && QueueOk(levels[i].orders, levels[i].price, isSell))
    && (forall i, j :: 0 <= i < j < |levels| ==> Better(isSell, levels[i].price, levels[j].price))
  }

  ghost predicate DistinctIds(q: seq<Resting>) {
    forall i, j :: 0 <= i < j < |q| ==> q[i].order.id != q[j].order.id
  }

  ghost predicate NotCrossed(bids: seq<Level>, asks: seq<Level>) {
    forall i, j :: 0 <= i < |bids| && 0 <= j < |asks| ==> bids[i].price < asks[j].price
  }

  // Every client entry leads to a live order of that user with that client id.
  ghost predicate ClientsLive(q: seq<Resting>, clients: map<ClientKey, nat>) {
    forall k :: k in clients ==> exists r :: r in q && r.order.id == clients[k] && KeyOf(r) == k
  }

  ghost predicate Wf(b: Book) {
    && SideOk(b.bids, false)
    && SideOk(b.asks, true)
    && NotCrossed(b.bids, b.asks)
    && DistinctIds(Orders(b))
    && (forall r :: r in Orders(b) ==> r.order.id < b.orderSeq)
    && ClientsLive(Orders(b), b.clients)
    && OrderCount(b) + b.leaked <= MAX_ARENA_ORDERS
    && LevelCount(b) <= MAX_PRICE_LEVELS
  }

  // A submission may carry its own id only if no resting order has it.
  ghost predicate FreshId(b: Book, o: Order) {
    o.id != 0 ==> forall r :: r in Orders(b) ==> r.order.id != o.id
  }

  const EMPTY: Book := Book([], [], map[], 0, 1, 1)
}
