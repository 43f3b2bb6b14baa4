/** Whole runs of the exchange from an empty start: deposits and commands in any order. */
module Runs {
  import opened Types
  import opened Matcher
  import opened Risk
  import opened Ledger
  import opened Exposure
  import opened Exchange
  import opened Accounting
  import opened DoubleRefunds

  datatype Event = Funds(userId: nat, usd: nat, sym: nat, qty: nat) | Received(order: Order, clientId: nat)

  const START: State := State([EMPTY, EMPTY, EMPTY], 1, map[])

  function Step(s: State, e: Event): (t: State)
    requires StateOk(s)
    ensures StateOk(t)
  {
    match e
    case Funds(u, usd, sym, qty) => s.(accounts := Deposited(s.accounts, u, usd, sym, qty))
    case Received(o, clientId) => LiveStep(s, o, clientId).0
  }

  function Run(es: seq<Event>): (t: State)
    ensures StateOk(t)
  {
    if es == [] then START else Step(Run(es[..|es| - 1]), es[|es| - 1])
  }

  // Every command of the run was one the statements assume, when its turn came.
  ghost predicate Admitted(es: seq<Event>) {
    es != [] ==>
      && Admitted(es[..|es| - 1])
      && (es[|es| - 1].Received? ==> Command(Run(es[..|es| - 1]), es[|es| - 1].order))
  }

  // No command of the run was a market buy that is refunded twice.
  ghost predicate NoDoubleRefund(es: seq<Event>) {
    es != [] ==>
      && NoDoubleRefund(es[..|es| - 1])
      && (es[|es| - 1].Received? ==> !RefundsTwice(Run(es[..|es| - 1]), es[|es| - 1].order))
  }

  // What a run deposited; a deposit of an unknown symbol is dropped whole.
  function UsdIn(es: seq<Event>): nat {
    if es == [] then 0
    else
      var e := es[|es| - 1];
      UsdIn(es[..|es| - 1]) + if e.Funds? && e.sym < NUM_SYMBOLS then e.usd else 0
  }

  function AssetIn(es: seq<Event>, a: nat): nat {
    if es == [] then 0
    else
      var e := es[|es| - 1];
      AssetIn(es[..|es| - 1], a) + if e.Funds? && e.sym == a && a < NUM_SYMBOLS then e.qty else 0
  }

  ghost predicate Balanced(es: seq<Event>) {
    && LocksMatch(Run(es)) && TotalUsd(Run(es).accounts) == UsdIn(es)
    && forall a :: TotalAsset(Run(es).accounts, a) == AssetIn(es, a)
  }

  lemma EmptyBookOk(i: nat)
    ensures BookOk(EMPTY, i, 1, map[])
  {
    assert Orders(EMPTY) == [];
  }

  lemma StartBooks()
    ensures SysOk(START)
  {
    hide BookOk;
    forall i {:trigger START.books[i]} | 0 <= i < NUM_SYMBOLS ensures BookOk(START.books[i], i, 1, map[]) {
      EmptyBookOk(i);
    }
  }

  lemma {:induction false} StartOk()
    ensures SysOk(START) && LocksMatch(START) && Balanced([])
  {
    hide BookOk;
    StartBooks();
    assert Flat([]) == [];
  }

  lemma {:induction false} DepositKeeps(s: State, u: nat, usd: nat, sym: nat, qty: nat)
    requires SysOk(s) && LocksMatch(s)
    ensures var t := Step(s, Funds(u, usd, sym, qty));
            && SysOk(t) && LocksMatch(t)
            && TotalUsd(t.accounts) == TotalUsd(s.accounts) + (if sym < NUM_SYMBOLS then usd else 0)
            && forall a: nat :: TotalAsset(t.accounts, a) ==
                 TotalAsset(s.accounts, a) + (if sym == a && a < NUM_SYMBOLS then qty else 0)
  {
    hide Wf, Flat, Value, Amount, UsdExposure;
    if sym < NUM_SYMBOLS {
      var t := Step(s, Funds(u, usd, sym, qty));
      DepositTotals(s.accounts, u, usd, sym, qty);
      forall i {:trigger t.books[i]} | 0 <= i < NUM_SYMBOLS ensures BookOk(t.books[i], i, t.nextId, t.accounts) {
        assert BookOk(s.books[i], i, s.nextId, s.accounts);
      }
      forall v | v in t.accounts ensures AccountMatches(t, v) {
        if v in s.accounts {
          assert AccountMatches(s, v) by { assert s.accounts[v] == s.accounts[v]; }
        } else {
          NewcomerOwnsNothing(s, v);
        }
      }
    }
  }

  lemma DepositTotals(accounts: Accounts, u: nat, usd: nat, sym: nat, qty: nat)
    requires AccountsOk(accounts) && sym < NUM_SYMBOLS
    ensures var r := Deposited(accounts, u, usd, sym, qty);
            && TotalUsd(r) == TotalUsd(accounts) + usd
            && (forall a :: TotalAsset(r, a) == TotalAsset(accounts, a) + (if sym == a then qty else 0))
            && (forall v :: v in accounts ==>
                 r[v].usdLocked == accounts[v].usdLocked && r[v].assetLocked == accounts[v].assetLocked)
            && (u !in accounts ==> r[u].usdLocked == 0 && r[u].assetLocked == NO_ASSETS)
            && r.Keys == accounts.Keys + {u}
  {
    var a := if u in accounts then accounts[u] else NewAccount(u);
    var r := Deposited(accounts, u, usd, sym, qty);
    assert a.assetLocked[sym := a.assetLocked[sym]] == a.assetLocked;
    SumUpdate(accounts, Usd, u, r[u]);
    forall s ensures TotalAsset(r, s) == TotalAsset(accounts, s) + (if sym == s then qty else 0) {
      SumUpdate(accounts, AssetOf(s), u, r[u]);
    }
  }

  lemma {:induction false} NewcomerOwnsNothing(s: State, v: nat)
    requires SysOk(s) && v !in s.accounts
    ensures UsdExposure(s.books, v) == 0 && forall i :: 0 <= i < NUM_SYMBOLS ==> Amount(Flat(s.books[i].asks), v) == 0
  {
    hide Wf, Flat, Value, Amount;
    forall i | 0 <= i < NUM_SYMBOLS
      ensures Value(Flat(s.books[i].bids), v) == 0 && Amount(Flat(s.books[i].asks), v) == 0
    {
      assert BookOk(s.books[i], i, s.nextId, s.accounts);
      ExposureNone(Flat(s.books[i].bids), v);
      ExposureNone(Flat(s.books[i].asks), v);
    }
  }

  // After every admitted run, with or without double refunds, all three books are well formed: sorted,
  // uncrossed, with distinct ids below the counter and a client index of live orders.
  lemma {:induction false} RunKeepsBooks(es: seq<Event>)
    requires Admitted(es)
    ensures SysOk(Run(es))
  {
    hide BookOk, LiveStep;
    if es == [] {
      StartOk();
    } else {
      var p, e := es[..|es| - 1], es[|es| - 1];
      RunKeepsBooks(p);
      match e
      case Funds(u, usd, sym, qty) => DepositBooks(Run(p), u, usd, sym, qty);
      case Received(o, clientId) => LiveStepBooks(Run(p), o, clientId);
    }
  }

  lemma DepositBooks(s: State, u: nat, usd: nat, sym: nat, qty: nat)
    requires SysOk(s)
    ensures SysOk(s.(accounts := Deposited(s.accounts, u, usd, sym, qty)))
  {
    hide Wf, Flat;
    var t := s.(accounts := Deposited(s.accounts, u, usd, sym, qty));
    forall i {:trigger t.books[i]} | 0 <= i < NUM_SYMBOLS ensures BookOk(t.books[i], i, t.nextId, t.accounts) {
      assert BookOk(s.books[i], i, s.nextId, s.accounts);
    }
  }

  // ----- Safety over whole runs -------------------------------------------------------------------

  // After every admitted run without a double refund, all three books are well formed and uncrossed,
  // locked funds are the exposure of resting orders, and money and assets are exactly what came in.
  lemma {:induction false} RunIsSafe(es: seq<Event>)
    requires Admitted(es) && NoDoubleRefund(es)
    ensures SysOk(Run(es)) && Balanced(es)
  {
    hide SysOk, LocksMatch, LiveStep, RefundsTwice, TotalUsd, TotalAsset;
    if es == [] {
      StartOk();
    } else {
      var p, e := es[..|es| - 1], es[|es| - 1];
      RunIsSafe(p);
      match e
      case Funds(u, usd, sym, qty) => DepositKeeps(Run(p), u, usd, sym, qty);
      case Received(o, clientId) => AccountingHoldsIff(Run(p), o, clientId);
    }
  }

  // Some double refund is the only way an admitted run ever gets out of balance.
  lemma {:induction false} BalancedIff(es: seq<Event>)
    requires Admitted(es)
    ensures NoDoubleRefund(es) <==> forall n :: 0 <= n <= |es| ==> Balanced(es[..n])
  {
    hide SysOk, LocksMatch, LiveStep, RefundsTwice, TotalUsd, TotalAsset, Balanced;
    assert es[..|es|] == es;
    if es == [] {
      StartOk();
      assert es[..0] == [];
    } else {
      var p, e := es[..|es| - 1], es[|es| - 1];
      BalancedIff(p);
      assert forall n :: 0 <= n <= |p| ==> p[..n] == es[..n];
      if NoDoubleRefund(p) {
        RunIsSafe(p);
        LastBalanced(es);
        assert forall n :: 0 <= n <= |es| ==> n <= |p| || es[..n] == es;
        assert (forall n :: 0 <= n <= |es| ==> Balanced(es[..n])) <==> Balanced(es) by {
          if Balanced(es) {
            forall n | 0 <= n <= |es| ensures Balanced(es[..n]) {
              if n <= |p| { assert Balanced(p[..n]); }
            }
          }
        }
      } else {
        var n :| 0 <= n <= |p| && !Balanced(p[..n]);
        assert p[..n] == es[..n];
      }
    }
  }

  lemma {:induction false} LastBalanced(es: seq<Event>)
    requires es != [] && Admitted(es) && SysOk(Run(es[..|es| - 1])) && Balanced(es[..|es| - 1])
    ensures Balanced(es) <==> es[|es| - 1].Received? ==> !RefundsTwice(Run(es[..|es| - 1]), es[|es| - 1].order)
  {
    hide SysOk, LocksMatch, LiveStep, RefundsTwice, TotalUsd, TotalAsset;
    var p, e := es[..|es| - 1], es[|es| - 1];
    match e
    case Funds(u, usd, sym, qty) => DepositKeeps(Run(p), u, usd, sym, qty);
    case Received(o, clientId) => AccountingHoldsIff(Run(p), o, clientId);
  }
}
