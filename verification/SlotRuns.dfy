/** Lost order slots over whole runs: exactly one for every submission that finds an order slot but no level
    slot, and none for anything else. */
module SlotRuns {
  import opened Types
  import opened Matcher
  import opened BookEffects
  import opened Reports
  import opened Risk
  import opened Exchange
  import opened Accounting
  import opened Runs

  // Order slots of all three books that are neither free nor queued.
  function Leaked(s: State): nat
    requires |s.books| == NUM_SYMBOLS
  {
    s.books[0].leaked + s.books[1].leaked + s.books[2].leaked
  }

  ghost predicate Loses(s: State, o: Order)
    requires StateOk(s)
  {
    && o.Kind() != Cancel && o.symbolId < NUM_SYMBOLS && Lock(s.accounts, o).1.Ok?
    && LosesSlot(s.books[o.symbolId], o)
  }

  lemma LeakedUpdate(s: State, i: nat, b: Book, nextId: nat, accounts: Accounts)
    requires |s.books| == NUM_SYMBOLS && i < NUM_SYMBOLS
    ensures Leaked(State(s.books[i := b], nextId, accounts)) + s.books[i].leaked == Leaked(s) + b.leaked
  {
  }

  lemma SameLoss(b: Book, o: Order, id: nat)
    ensures LosesSlot(b, o.(id := id)) <==> LosesSlot(b, o)
  {
    hide MissesBest, HasPrice, Flat, NoSlot;
    SameMiss(b, o, id);
  }

  // One command loses at most one slot, and exactly when it is such a submission.
  lemma StepLeaks(s: State, o: Order, clientId: nat)
    requires SysOk(s) && Command(s, o)
    ensures var t := LiveStep(s, o, clientId).0;
            StateOk(t) && Leaked(t) == Leaked(s) + if Loses(s, o) then 1 else 0
  {
    hide Wf, Flat, Lock, Submit, Process, LosesSlot, CancelOrder, UnlockOrder, Leaked, LiveStamp;
    LiveStepBooks(s, o, clientId);
    var t := LiveStep(s, o, clientId).0;
    if o.Kind() == Cancel {
      if o.symbolId < NUM_SYMBOLS {
        var b := s.books[o.symbolId];
        assert BookOk(b, o.symbolId, s.nextId, s.accounts);
        var k := CancelIsExact(b, o.userId, o.id);
        LeakedUpdate(s, o.symbolId, CancelOrder(b, o.userId, o.id).0, t.nextId, t.accounts);
      }
    } else if Lock(s.accounts, o).1.Ok? {
      hide LiveStep;
      StampedFacts(s, o, clientId);
      LiveIs(s, o, clientId);
      var p, b := Stamped(s, o), s.books[o.symbolId];
      SlotLostExactlyWhen(b, p, clientId);
      SameLoss(b, o, p.id);
      LeakedUpdate(s, o.symbolId, Out(s, o, clientId).book, t.nextId, t.accounts);
    }
  }

  // How many commands of the run lost a slot.
  ghost function Losses(es: seq<Event>): nat {
    if es == [] then 0
    else
      var p, e := es[..|es| - 1], es[|es| - 1];
      Losses(p) + if e.Received? && Loses(Run(p), e.order) then 1 else 0
  }

  // Cancels and accepted orders never lose a slot, and no lost slot ever comes back.
  lemma {:induction false} LeakedIs(es: seq<Event>)
    requires Admitted(es)
    ensures Leaked(Run(es)) == Losses(es)
  {
    hide SysOk, LiveStep, Loses, Command, Deposited;
    if es != [] {
      var p, e := es[..|es| - 1], es[|es| - 1];
      LeakedIs(p);
      RunKeepsBooks(p);
      if e.Received? { StepLeaks(Run(p), e.order, e.clientId); }
    }
  }
}
