/** Cancelling by client id: a cancel looks a number up as an exchange id first, so a client id leads to its
    order only while no other live order of the book has that number for an exchange id. */
module ClientReach {
  import opened Types
  import opened Matcher
  import opened PriceTime
  import opened BookLaws
  import opened BookSafety
  import opened BookEffects
  import opened Reports
  import opened ClientIndex
  import opened ClientRuns
  import opened Risk
  import opened Exchange
  import opened Accounting
  import opened Runs

  // A cancel of the owner by client id takes out this order.
  predicate Reached(b: Book, r: Resting) {
    CancelOrder(b, r.order.userId, r.order.clientOrderId).1 == Ok(r.order)
  }

  ghost predicate AllReached(b: Book) {
    forall r :: r in Orders(b) ==> Reached(b, r)
  }

  // No client id is the exchange id of another order.
  ghost predicate Unmistakable(q: seq<Resting>) {
    forall r, x :: r in q && x in q && x.order.id == r.order.clientOrderId ==> x.order.id == r.order.id
  }

  // ----- One book ---------------------------------------------------------------------------------

  lemma LiveIsFound(b: Book, r: Resting)
    requires Wf(b) && r in Orders(b)
    ensures FindIn(Orders(b), r.order.id) == Some(r)
  {
    hide Flat, SideOk, NotCrossed, ClientsLive;
    FindPresent(Orders(b), r);
    DistinctFind(Orders(b), r.order.id);
  }

  // An order is reached when its client id happens to be its exchange id, or when no order has that number
  // for an exchange id and the client entry is its own.
  lemma ReachedIff(b: Book, r: Resting)
    requires Wf(b) && r in Orders(b)
    ensures Reached(b, r) <==>
            || r.order.clientOrderId == r.order.id
            || ((forall x :: x in Orders(b) ==> x.order.id != r.order.clientOrderId)
                && KeyOf(r) in b.clients && b.clients[KeyOf(r)] == r.order.id)
  {
    hide Wf, Flat;
    var id := r.order.clientOrderId;
    LiveIsFound(b, r);
    if x :| x in Orders(b) && x.order.id == id {
      LiveIsFound(b, x);
    } else {
      FindAbsent(Orders(b), id);
    }
  }

  // With a complete index one live order is reached exactly when no other one has its number.
  lemma ReachedUnlessTaken(b: Book, r: Resting)
    requires Wf(b) && Complete(Orders(b), b.clients) && r in Orders(b)
    ensures Reached(b, r) <==> forall x :: x in Orders(b) && x.order.id == r.order.clientOrderId ==> x == r
  {
    hide Wf, Flat, Reached;
    ReachedIff(b, r);
    LiveIsFound(b, r);
    forall x | x in Orders(b) && x.order.id == r.order.id ensures x == r { LiveIsFound(b, x); }
  }

  lemma AllReachedIff(b: Book)
    requires Wf(b) && Complete(Orders(b), b.clients)
    ensures AllReached(b) <==> Unmistakable(Orders(b))
  {
    hide Wf, Flat, Reached;
    forall r | r in Orders(b)
      ensures Reached(b, r) <==>
                forall x :: x in Orders(b) && x.order.id == r.order.clientOrderId ==> x.order.id == r.order.id
    {
      ReachedUnlessTaken(b, r);
      LiveIsFound(b, r);
      forall x | x in Orders(b) && x.order.id == r.order.id ensures x == r { LiveIsFound(b, x); }
    }
  }

  // ----- One submission ---------------------------------------------------------------------------

  // The orders that a submission which comes to rest leaves on the book: all of its own side, and what
  // lies behind the last order it can trade with.
  predicate Stays(b: Book, o: Order, x: Resting) {
    var own, q := Flat(if o.IsSell() then b.asks else b.bids), Flat(if o.IsSell() then b.bids else b.asks);
    x in own || x in q[Eligible(o, q)..]
  }

  // An order that stays has the submission's client id for an exchange id, or the other way round.
  ghost predicate Mistakable(b: Book, o: Order, id: nat) {
    exists x :: Stays(b, o, x) && (x.order.id == o.clientOrderId || x.order.clientOrderId == id)
  }

  // A submission that comes to rest consumes all it can trade with, and is put in somewhere on its side.
  lemma SidesAtRest(b: Book, o: Order, clientId: nat) returns (r: Resting, k: nat)
    requires Wf(b) && FreshId(b, o) && ComesToRest(b, o)
    ensures r.order.id == Stamp(b, o).id && KeyOf(r) == (o.userId, o.clientOrderId)
    ensures var c := Submit(b, o, clientId).book;
            var own, q := Flat(if o.IsSell() then b.asks else b.bids), Flat(if o.IsSell() then b.bids else b.asks);
            && k <= |own| && Flat(if o.IsSell() then c.asks else c.bids) == own[..k] + [r] + own[k..]
            && Flat(if o.IsSell() then c.bids else c.asks) == q[Eligible(o, q)..]
  {
    hide SideOk, NotCrossed, DistinctIds, ClientsLive, Flat, Submit, Drain, NoSlot, Volume, Better;
    RestsExactlyWhen(b, o, clientId);
    k := SubmissionIsExact(b, o, clientId);
    var out, p := Submit(b, o, clientId), Stamp(b, o);
    var q := Flat(if o.IsSell() then b.bids else b.asks);
    r := Resting(p.(qty := out.result.value.remainingQty), clientId);
    SameEligible(o, p.id, q);
    var n := Eligible(o, q);
    FlatQtys(b);
    DrainAll(q[..n], o.qty);
    assert [] + q[n..] == q[n..];
  }

  lemma InsertedMembers(q: seq<Resting>, k: nat, r: Resting)
    requires k <= |q|
    ensures forall x :: x in q[..k] + [r] + q[k..] <==> x in q || x == r
  {
    assert q == q[..k] + q[k..];
  }

  // After it, the live orders are those that stay, and itself.
  lemma LeftAtRest(b: Book, o: Order, clientId: nat) returns (r: Resting)
    requires Wf(b) && FreshId(b, o) && ComesToRest(b, o)
    ensures r.order.id == Stamp(b, o).id && KeyOf(r) == (o.userId, o.clientOrderId)
    ensures forall x :: x in Orders(Submit(b, o, clientId).book) <==> Stays(b, o, x) || x == r
  {
    hide Wf, ComesToRest, Flat, Submit;
    var k;
    r, k := SidesAtRest(b, o, clientId);
    InsertedMembers(Flat(if o.IsSell() then b.asks else b.bids), k, r);
  }

  // What stays was there before.
  lemma StaysLive(b: Book, o: Order, x: Resting)
    requires Stays(b, o, x)
    ensures x in Orders(b)
  {
    hide Flat;
  }

  lemma AtRestUnmistakable(b: Book, o: Order, clientId: nat)
    requires Wf(b) && FreshId(b, o) && ComesToRest(b, o) && Unmistakable(Orders(b))
    ensures Unmistakable(Orders(Submit(b, o, clientId).book)) <==> !Mistakable(b, o, Stamp(b, o).id)
  {
    hide Flat, SideOk, NotCrossed, DistinctIds, ClientsLive, Submit, ComesToRest, Stays;
    var r := LeftAtRest(b, o, clientId);
    forall x | Stays(b, o, x) ensures x in Orders(b) && x.order.id != r.order.id { StaysLive(b, o, x); }
  }

  // A sweep or a cancel leaves some of the orders, with their ids.
  ghost predicate SomeOf(t: seq<Resting>, q: seq<Resting>) {
    forall x :: x in t ==> exists y :: y in q && SameOrder(x, y)
  }

  lemma SomeUnmistakable(t: seq<Resting>, q: seq<Resting>)
    requires SomeOf(t, q) && Unmistakable(q)
    ensures Unmistakable(t)
  {
  }

  lemma SuffixSome(t: seq<Resting>, q: seq<Resting>)
    requires SuffixOf(t, q)
    ensures SomeOf(t, q)
  {
    forall i | 0 <= i < |t| ensures exists y :: y in q && SameOrder(t[i], y) {
      SuffixAt(t, q, i);
      assert q[|q| - |t| + i] in q;
    }
  }

  lemma SelfSome(q: seq<Resting>)
    ensures SomeOf(q, q)
  {
    forall x | x in q ensures exists y :: y in q && SameOrder(x, y) { assert SameOrder(x, x); }
  }

  lemma SweepSome(b: Book, o: Order, clientId: nat)
    requires Wf(b)
    ensures SomeOf(Orders(AfterSweep(b, o.IsSell(), Swept(b, o, clientId))), Orders(b))
  {
    hide MatchSide, LevelSuffix, SuffixOf, NotCrossed, SideOk, DistinctIds, ClientsLive, Flat, SameOrder;
    SweepSuffixes(b, o, clientId);
    var c := AfterSweep(b, o.IsSell(), Swept(b, o, clientId));
    SuffixSome(Flat(c.bids), Flat(b.bids));
    SuffixSome(Flat(c.asks), Flat(b.asks));
  }

  lemma NotAtRestSome(b: Book, o: Order, clientId: nat)
    requires Wf(b) && FreshId(b, o) && !ComesToRest(b, o)
    ensures SomeOf(Orders(Submit(b, o, clientId).book), Orders(b))
  {
    hide MatchSide, Rest, SideOk, NotCrossed, DistinctIds, ClientsLive, Flat, ComesToRest, NoSlot, SomeOf;
    var p := Stamp(b, o);
    var b0 := b.(orderSeq := StampedSeq(b, o));
    RestsExactlyWhen(b, o, clientId);
    RefusalChangesNothing(b, o, clientId);
    SeqKeepsWf(b, StampedSeq(b, o));
    SweepSome(b0, p, clientId);
    var out := Submit(b, o, clientId);
    if out.result.Err? {
      SameOrdersOf(out.book, b);
      SelfSome(Orders(b));
    } else {
      SameOrdersOf(b0, b);
    }
  }

  // A submission after which some live order is not reached by its client id, although all were before: it
  // comes to rest under a live client id of its user, or one number is a client id and another order's id.
  ghost predicate Confuses(b: Book, o: Order, id: nat) {
    ComesToRest(b, o) && (KeyIsLive(b, o) || Mistakable(b, o, id))
  }

  // Two live orders of one user cannot both be reached by the same client id.
  lemma SharedKeyConfuses(b: Book, r: Resting, x: Resting)
    requires r in Orders(b) && x in Orders(b) && KeyOf(r) == KeyOf(x) && r.order.id != x.order.id
    ensures !AllReached(b)
  {
    hide CancelOrder, Flat;
  }

  lemma SubmitReachedIff(b: Book, o: Order, clientId: nat)
    requires Wf(b) && FreshId(b, o) && Complete(Orders(b), b.clients) && AllReached(b)
    ensures AllReached(Submit(b, o, clientId).book) <==> !Confuses(b, o, Stamp(b, o).id)
  {
    hide Wf, Flat, Submit, ComesToRest, Complete, AllReached, Unmistakable, Mistakable, Stays, SomeOf;
    var c := Submit(b, o, clientId).book;
    SubmitKeepsWf(b, o, clientId);
    AllReachedIff(b);
    SubmitCompleteIff(b, o, clientId);
    if !ComesToRest(b, o) {
      NotAtRestSome(b, o, clientId);
      SomeUnmistakable(Orders(c), Orders(b));
      AllReachedIff(c);
    } else if KeyIsLive(b, o) {
      KeyIsShared(b, o, clientId);
    } else {
      AtRestUnmistakable(b, o, clientId);
      AllReachedIff(c);
    }
  }

  lemma KeyIsShared(b: Book, o: Order, clientId: nat)
    requires Wf(b) && FreshId(b, o) && ComesToRest(b, o) && KeyIsLive(b, o)
    ensures !AllReached(Submit(b, o, clientId).book)
  {
    hide SideOk, NotCrossed, DistinctIds, ClientsLive, Flat, Submit, AllReached, NoSlot, Volume;
    var r := LeftAtRest(b, o, clientId);
    var x :| x in Orders(b) && KeyOf(x) == (o.userId, o.clientOrderId);
    var own, q := Flat(if o.IsSell() then b.asks else b.bids), Flat(if o.IsSell() then b.bids else b.asks);
    if x in q {
      var i :| 0 <= i < |q| && q[i] == x;
      assert q[Eligible(o, q)..][i - Eligible(o, q)] == x;
    }
    assert Stays(b, o, x);
    SharedKeyConfuses(Submit(b, o, clientId).book, r, x);
  }

  lemma CancelReached(b: Book, userId: nat, id: nat)
    requires Wf(b) && Complete(Orders(b), b.clients) && AllReached(b)
    ensures AllReached(CancelOrder(b, userId, id).0)
  {
    hide Flat, SideOk, NotCrossed, DistinctIds, ClientsLive, CancelOrder, AllReached, Complete;
    var k := CancelIsExact(b, userId, id);
    CancelKeepsComplete(b, userId, id);
    var c := CancelOrder(b, userId, id).0;
    AllReachedIff(b);
    AllReachedIff(c);
  }

  // ----- One command ------------------------------------------------------------------------------

  // In all three books every live order is reached by its client id.
  ghost predicate OwnersReach(s: State)
    requires StateOk(s)
  {
    forall i {:trigger s.books[i]} :: 0 <= i < NUM_SYMBOLS ==> AllReached(s.books[i])
  }

  ghost predicate Confused(s: State, o: Order)
    requires StateOk(s)
  {
    && o.Kind() != Cancel && o.symbolId < NUM_SYMBOLS && Lock(s.accounts, o).1.Ok?
    && Confuses(s.books[o.symbolId], o, Stamped(s, o).id)
  }

  lemma SameConfusion(b: Book, o: Order, id: nat)
    ensures Confuses(b, o.(id := id), id) <==> Confuses(b, o, id)
  {
    hide Flat, ComesToRest;
    var p := o.(id := id);
    SameRest(b, o, id);
    SameKey(b, o, id);
    SameEligible(o, id, Flat(if o.IsSell() then b.bids else b.asks));
    assert forall x :: Stays(b, p, x) <==> Stays(b, o, x);
  }

  lemma OneBookReached(s: State, i: nat, b: Book, nextId: nat, accounts: Accounts)
    requires StateOk(s) && OwnersReach(s) && i < NUM_SYMBOLS && AccountsOk(accounts)
    ensures OwnersReach(State(s.books[i := b], nextId, accounts)) <==> AllReached(b)
  {
    hide AllReached;
    var t := State(s.books[i := b], nextId, accounts);
    assert t.books[i] == b;
  }

  lemma SubmissionReached(s: State, o: Order, clientId: nat)
    requires Sent(s, o) && IndexComplete(s) && OwnersReach(s)
    ensures OwnersReach(LiveStep(s, o, clientId).0) <==> !Confused(s, o)
  {
    hide Wf, Flat, Complete, Lock, Submit, Process, LiveStep, Confuses, AllReached;
    StampedFacts(s, o, clientId);
    LiveIs(s, o, clientId);
    LiveStepBooks(s, o, clientId);
    var p, b, t := Stamped(s, o), s.books[o.symbolId], LiveStep(s, o, clientId).0;
    SubmitReachedIff(b, p, clientId);
    SameConfusion(b, o, p.id);
    OneBookReached(s, o.symbolId, Out(s, o, clientId).book, t.nextId, t.accounts);
  }

  lemma CancelStepReached(s: State, o: Order)
    requires SysOk(s) && IndexComplete(s) && OwnersReach(s)
    ensures OwnersReach(CancelStep(s, o).0)
  {
    hide Wf, Flat, Complete, CancelOrder, UnlockOrder, AllReached;
    if o.symbolId < NUM_SYMBOLS {
      var b := s.books[o.symbolId];
      assert BookOk(b, o.symbolId, s.nextId, s.accounts);
      CancelReached(b, o.userId, o.id);
      var t := CancelStep(s, o).0;
      OneBookReached(s, o.symbolId, CancelOrder(b, o.userId, o.id).0, t.nextId, t.accounts);
    }
  }

  // Across any admitted command every live order stays within reach of its client id exactly when the
  // command confuses no numbers.
  lemma StepReachedIff(s: State, o: Order, clientId: nat)
    requires SysOk(s) && IndexComplete(s) && OwnersReach(s) && Command(s, o)
    ensures OwnersReach(LiveStep(s, o, clientId).0) <==> !Confused(s, o)
  {
    hide BookOk, Complete, CancelStep, Lock, SubmitStep, Confuses, AllReached;
    if o.Kind() == Cancel {
      CancelStepReached(s, o);
    } else if Lock(s.accounts, o).1.Ok? {
      SubmissionReached(s, o, clientId);
    }
  }

  // ----- Whole runs -------------------------------------------------------------------------------

  ghost predicate NoConfusion(es: seq<Event>) {
    es != [] ==>
      && NoConfusion(es[..|es| - 1])
      && (es[|es| - 1].Received? ==> !Confused(Run(es[..|es| - 1]), es[|es| - 1].order))
  }

  // A run without confusion reuses no live client id, so its index is complete.
  lemma {:induction false} NoConfusionNoReuse(es: seq<Event>)
    requires NoConfusion(es)
    ensures NoKeyReuse(es)
  {
    hide Run, ComesToRest, KeyIsLive, Mistakable, Lock;
    if es != [] { NoConfusionNoReuse(es[..|es| - 1]); }
  }

  lemma LastReached(es: seq<Event>)
    requires es != [] && Admitted(es) && IndexComplete(Run(es[..|es| - 1])) && OwnersReach(Run(es[..|es| - 1]))
    ensures OwnersReach(Run(es))
            <==> es[|es| - 1].Received? ==> !Confused(Run(es[..|es| - 1]), es[|es| - 1].order)
  {
    hide SysOk, LiveStep, Confused, Complete, AllReached, Deposited, Command;
    var p, e := es[..|es| - 1], es[|es| - 1];
    RunKeepsBooks(p);
    if e.Received? { StepReachedIff(Run(p), e.order, e.clientId); }
  }

  lemma StartReached()
    ensures OwnersReach(START)
  {
    assert Flat([]) == [];
    assert Orders(EMPTY) == [];
  }

  // At every point of an admitted run each live order can be cancelled by its client id if and only if no
  // order came to rest under the client id of a live one, with the exchange id of a live one for a client
  // id, or with an exchange id that is a live client id.
  lemma {:induction false} ReachedAlwaysIff(es: seq<Event>)
    requires Admitted(es)
    ensures NoConfusion(es) <==> forall n :: 0 <= n <= |es| ==> OwnersReach(Run(es[..n]))
  {
    hide SysOk, LiveStep, Confused, OwnersReach, IndexComplete, Run, Command;
    assert es[..|es|] == es;
    if es == [] {
      StartIsRun();
      StartReached();
      assert es[..0] == [];
    } else {
      var p := es[..|es| - 1];
      ReachedAlwaysIff(p);
      forall n | 0 <= n <= |p| ensures p[..n] == es[..n] {}
      if NoConfusion(p) {
        NoConfusionNoReuse(p);
        CompleteIff(p);
        assert p[..|p|] == p;
        LastReached(es);
        forall n | 0 <= n <= |es| && OwnersReach(Run(es)) ensures OwnersReach(Run(es[..n])) {
          if n <= |p| { assert OwnersReach(Run(p[..n])); }
        }
      } else {
        var n :| 0 <= n <= |p| && !OwnersReach(Run(p[..n]));
        assert p[..n] == es[..n];
      }
    }
  }
}
