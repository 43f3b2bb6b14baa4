/** The client index over whole runs: when every live order has its own client entry. Whether a cancel gets
    to that entry is another matter (see ClientReach). */
module ClientRuns {
  import opened Types
  import opened Matcher
  import opened Reports
  import opened ClientIndex
  import opened Risk
  import opened Exchange
  import opened Accounting
  import opened Runs

  // Every live order of all three books has its own client entry.
  ghost predicate IndexComplete(s: State)
    requires StateOk(s)
  {
    forall i {:trigger s.books[i]} :: 0 <= i < NUM_SYMBOLS ==> Complete(Orders(s.books[i]), s.books[i].clients)
  }

  // The command will come to rest under the client id of a live order of the same user in its book.
  ghost predicate ReusesLiveKey(s: State, o: Order)
    requires StateOk(s)
  {
    && o.Kind() != Cancel && o.symbolId < NUM_SYMBOLS && Lock(s.accounts, o).1.Ok?
    && ComesToRest(s.books[o.symbolId], o) && KeyIsLive(s.books[o.symbolId], o)
  }

  lemma OneBookComplete(s: State, i: nat, b: Book, nextId: nat, accounts: Accounts)
    requires StateOk(s) && IndexComplete(s) && i < NUM_SYMBOLS && AccountsOk(accounts)
    ensures IndexComplete(State(s.books[i := b], nextId, accounts)) <==> Complete(Orders(b), b.clients)
  {
    hide Complete, Orders;
    var t := State(s.books[i := b], nextId, accounts);
    assert t.books[i] == b;
  }

  lemma SubmissionComplete(s: State, o: Order, clientId: nat)
    requires Sent(s, o) && IndexComplete(s)
    ensures IndexComplete(LiveStep(s, o, clientId).0) <==> !ReusesLiveKey(s, o)
  {
    hide Wf, Flat, Complete, Lock, Submit, Process, LiveStep, ComesToRest, KeyIsLive;
    StampedFacts(s, o, clientId);
    LiveIs(s, o, clientId);
    LiveStepBooks(s, o, clientId);
    var p, b, t := Stamped(s, o), s.books[o.symbolId], LiveStep(s, o, clientId).0;
    SubmitCompleteIff(b, p, clientId);
    SameRest(b, o, p.id);
    SameKey(b, o, p.id);
    OneBookComplete(s, o.symbolId, Out(s, o, clientId).book, t.nextId, t.accounts);
  }

  lemma SameKey(b: Book, o: Order, id: nat)
    ensures KeyIsLive(b, o.(id := id)) <==> KeyIsLive(b, o)
  {
  }

  lemma CancelComplete(s: State, o: Order)
    requires SysOk(s) && IndexComplete(s)
    ensures IndexComplete(CancelStep(s, o).0)
  {
    hide Wf, Flat, Complete, CancelOrder, UnlockOrder;
    if o.symbolId < NUM_SYMBOLS {
      var b := s.books[o.symbolId];
      assert BookOk(b, o.symbolId, s.nextId, s.accounts);
      CancelKeepsComplete(b, o.userId, o.id);
      var t := CancelStep(s, o).0;
      OneBookComplete(s, o.symbolId, CancelOrder(b, o.userId, o.id).0, t.nextId, t.accounts);
    }
  }

  // Across any admitted command a complete index stays complete exactly when no live key is reused.
  lemma StepCompleteIff(s: State, o: Order, clientId: nat)
    requires SysOk(s) && IndexComplete(s) && Command(s, o)
    ensures IndexComplete(LiveStep(s, o, clientId).0) <==> !ReusesLiveKey(s, o)
  {
    hide BookOk, Complete, CancelStep, Lock, SubmitStep, ComesToRest, KeyIsLive;
    if o.Kind() == Cancel {
      CancelComplete(s, o);
    } else if Lock(s.accounts, o).1.Ok? {
      SubmissionComplete(s, o, clientId);
    }
  }

  // ----- Whole runs -------------------------------------------------------------------------------

  ghost predicate NoKeyReuse(es: seq<Event>) {
    es != [] ==>
      && NoKeyReuse(es[..|es| - 1])
      && (es[|es| - 1].Received? ==> !ReusesLiveKey(Run(es[..|es| - 1]), es[|es| - 1].order))
  }

  lemma StartComplete()
    ensures IndexComplete(START)
  {
    assert Flat([]) == [];
    assert Orders(EMPTY) == [];
  }

  lemma LastComplete(es: seq<Event>)
    requires es != [] && Admitted(es) && IndexComplete(Run(es[..|es| - 1]))
    ensures IndexComplete(Run(es))
            <==> es[|es| - 1].Received? ==> !ReusesLiveKey(Run(es[..|es| - 1]), es[|es| - 1].order)
  {
    hide SysOk, LiveStep, ReusesLiveKey, Complete, Deposited, Command;
    var p, e := es[..|es| - 1], es[|es| - 1];
    RunKeepsBooks(p);
    if e.Received? { StepCompleteIff(Run(p), e.order, e.clientId); }
  }

  // At every point of an admitted run every live order has its own client entry if and only if no order
  // came to rest under the client id of a live one.
  lemma {:induction false} CompleteIff(es: seq<Event>)
    requires Admitted(es)
    ensures NoKeyReuse(es) <==> forall n :: 0 <= n <= |es| ==> IndexComplete(Run(es[..n]))
  {
    hide SysOk, LiveStep, ReusesLiveKey, IndexComplete, Run, Command;
    assert es[..|es|] == es;
    if es == [] {
      StartIsRun();
      StartComplete();
      assert es[..0] == [];
    } else {
      var p := es[..|es| - 1];
      CompleteIff(p);
      forall n | 0 <= n <= |p| ensures p[..n] == es[..n] {}
      if NoKeyReuse(p) {
        assert p[..|p|] == p;
        LastComplete(es);
        forall n | 0 <= n <= |es| && IndexComplete(Run(es)) ensures IndexComplete(Run(es[..n])) {
          if n <= |p| { assert IndexComplete(Run(p[..n])); }
        }
      } else {
        var n :| 0 <= n <= |p| && !IndexComplete(Run(p[..n]));
        assert p[..n] == es[..n];
      }
    }
  }

  lemma StartIsRun()
    ensures Run([]) == START
  {
  }
}
