/** A run that fills every level slot of a book: one more sell is refused, loses an order slot, and from
    then on the log rebuilds another state. */
module FullBook {
  import opened Types
  import opened Matcher
  import opened BookSafety
  import opened BookEffects
  import opened Reports
  import opened Risk
  import opened Exchange
  import opened Accounting
  import opened Runs
  import opened Replay
  import opened Scenarios

  // User 1 with one lot more than there are level slots.
  const LOTS: nat := MAX_PRICE_LEVELS + 1

  const SELLER: State := START.(accounts := Deposited(map[], 1, 0, 0, LOTS))

  // One sell of one lot at each of the prices 1 to n.
  function Sells(n: nat): seq<(Order, nat)> { seq(n, i requires 0 <= i < n => (Sell(i + 1, i + 1), 7)) }

  // n levels of one order each, at the prices 1 to n, and the rest of the lots still free.
  ghost predicate Laddered(s: State, n: nat) {
    && SysOk(s) && s.nextId == n + 1
    && s.books[0].bids == [] && s.books[0].leaked == 0
    && LevelCount(s.books[0]) == n && OrderCount(s.books[0]) == n
    && (forall p :: p > n ==> !HasPrice(s.books[0].asks, p))
    && 1 in s.accounts && n <= LOTS && s.accounts[1].assetAvailable[0] == LOTS - n
  }

  lemma SellerStarts()
    ensures StateOk(SELLER) && Laddered(SELLER, 0)
  {
    StartOk();
    DepositBooks(START, 1, 0, 0, LOTS);
    assert Flat([]) == [];
  }

  // One more level, as long as there is a slot for it.
  lemma NextLevel(s: State, n: nat)
    requires Laddered(s, n) && n < MAX_PRICE_LEVELS
    ensures StateOk(s) && Command(s, Sell(n + 1, n + 1)) && !Refused(s, Sell(n + 1, n + 1), 7)
    ensures Laddered(LiveStep(s, Sell(n + 1, n + 1), 7).0, n + 1)
  {
    hide SysOk, LiveStep, Lock, Rested, Refused, OrderCount, LevelCount, HasPrice;
    BookOf(s, 0);
    var o, b := Sell(n + 1, n + 1), s.books[0];
    SellLocks(s.accounts, n + 1, n + 1);
    SellRests(s, o, 7);
    OneMoreLevel(b, Resting(o.(id := s.nextId), 7), n);
  }

  lemma OneMoreLevel(b: Book, r: Resting, n: nat)
    requires Wf(b) && r.order.price == n + 1 && forall p :: p > n ==> !HasPrice(b.asks, p)
    ensures var c := Rested(b, r);
            && c.bids == b.bids && c.leaked == b.leaked
            && LevelCount(c) == LevelCount(b) + 1 && OrderCount(c) == OrderCount(b) + 1
            && forall p :: p > n + 1 ==> !HasPrice(c.asks, p)
  {
    hide Flat, Place, HasPrice, NotCrossed, DistinctIds, ClientsLive, SideOk;
    SideOkSorted(b.asks, true);
    PlacePrices(b.asks, r, true);
    var k := PlaceInserts(b.asks, r, true);
  }

  lemma SellsSnoc(n: nat)
    ensures Sells(n + 1) == Sells(n) + [(Sell(n + 1, n + 1), 7)] && Sells(n + 1)[..n] == Sells(n) && |Sells(n)| == n
  {
  }

  lemma AllowedSnoc(s: State, cmds: seq<(Order, nat)>, cmd: (Order, nat))
    requires StateOk(s) && Allowed(s, cmds) && Command(LiveRun(s, cmds).0, cmd.0)
    ensures Allowed(s, cmds + [cmd])
  {
    hide LiveRun, Command;
    var all := cmds + [cmd];
    forall i | 0 <= i < |all| ensures Command(LiveRun(s, all[..i]).0, all[i].0) {
      if i < |cmds| {
        assert all[..i] == cmds[..i] && all[i] == cmds[i];
        AllowedAt(s, cmds, i);
      } else {
        assert all[..i] == cmds;
      }
    }
  }

  lemma OneMore(s: State, cmds: seq<(Order, nat)>)
    requires StateOk(s) && cmds != []
    ensures var p, c := cmds[..|cmds| - 1], cmds[|cmds| - 1];
            && LiveRun(s, cmds).0 == LiveStep(LiveRun(s, p).0, c.0, c.1).0
            && (NeverFull(s, cmds) <==> NeverFull(s, p) && !Refused(LiveRun(s, p).0, c.0, c.1))
  {
    hide LiveStep, Refused;
  }

  lemma {:induction false} LadderFills(n: nat)
    requires n <= MAX_PRICE_LEVELS
    ensures StateOk(SELLER) && Laddered(LiveRun(SELLER, Sells(n)).0, n)
    ensures NeverFull(SELLER, Sells(n)) && Allowed(SELLER, Sells(n))
  {
    hide Laddered, LiveStep, LiveRun, Refused, Command, NeverFull, Allowed, Sells;
    SellerStarts();
    if n == 0 {
      NoSells();
    } else {
      LadderFills(n - 1);
      SellsSnoc(n - 1);
      NextLevel(LiveRun(SELLER, Sells(n - 1)).0, n - 1);
      AllowedSnoc(SELLER, Sells(n - 1), (Sell(n, n), 7));
      OneMore(SELLER, Sells(n));
    }
  }

  lemma NoSells()
    requires StateOk(SELLER)
    ensures LiveRun(SELLER, Sells(0)).0 == SELLER && NeverFull(SELLER, Sells(0)) && Allowed(SELLER, Sells(0))
  {
    assert Sells(0) == [];
  }

  lemma NoLevelLeft(b: Book)
    requires b.bids == [] && b.leaked == 0 && LevelCount(b) == OrderCount(b) == MAX_PRICE_LEVELS
    requires !HasPrice(b.asks, LOTS)
    ensures forall o: Order :: o.price == LOTS && o.IsSell() && o.Kind() == Limit && o.qty > 0 ==>
              NoSlot(b, o) && MissesBest(b, o) && LosesSlot(b, o)
  {
    hide OrderCount, LevelCount, HasPrice;
  }

  // The last sell is let through, its funds are locked, and the engine refuses it.
  lemma LastIsRefused(s: State)
    requires Laddered(s, MAX_PRICE_LEVELS)
    ensures var o := Sell(LOTS, LOTS);
            && StateOk(s) && Command(s, o) && Refused(s, o, 7)
            && LiveStep(s, o, 7).0.books[0].leaked == 1
  {
    hide SysOk, BookOk, Wf, LiveStep, Lock, Refused, OrderCount, LevelCount, HasPrice, Process, Submit;
    BookOf(s, 0);
    var o, b := Sell(LOTS, LOTS), s.books[0];
    SellLocks(s.accounts, LOTS, LOTS);
    NoLevelLeft(b);
    RefusedExactlyWhen(s, o, 7);
    StampedFacts(s, o, 7);
    LiveIs(s, o, 7);
    var p := Stamped(s, o);
    SlotLostExactlyWhen(b, p, 7);
  }

  // Filling every level slot and sending one more sell: it is refused and loses an order slot, and the
  // log, which rebuilt every state until then, rebuilds another one.
  lemma FullBookBreaksReplay()
    ensures var full, over := Sells(MAX_PRICE_LEVELS), Sells(LOTS);
            && StateOk(SELLER) && Allowed(SELLER, over) && NeverFull(SELLER, full) && !NeverFull(SELLER, over)
            && Rebuilds(SELLER, full) && !Rebuilds(SELLER, over)
            && LiveRun(SELLER, over).0.books[0].leaked == 1
  {
    hide Laddered, LiveStep, LiveRun, Refused, Command, Rebuilds, NeverFull, Allowed, Sell, Sells;
    var full, over := Sells(MAX_PRICE_LEVELS), Sells(LOTS);
    LadderFills(MAX_PRICE_LEVELS);
    SellsSnoc(MAX_PRICE_LEVELS);
    var s := LiveRun(SELLER, full).0;
    LastIsRefused(s);
    AllowedSnoc(SELLER, full, (Sell(LOTS, LOTS), 7));
    AllowedIsReplayable(SELLER, over);
    LogRebuilds(SELLER, full);
    LastStep(SELLER, over);
    OneMore(SELLER, over);
  }
}
