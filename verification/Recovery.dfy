/** From the bytes of a log to the state of the exchange: whatever part of the log a crash leaves, reading
    and replaying it rebuilds a state that the live loop went through. */
module Recovery {
  import opened Types
  import opened Exchange
  import opened Replay
  import opened Wal

  function OrdersOf(rs: seq<Record>): seq<Order> { seq(|rs|, i requires 0 <= i < |rs| => rs[i].order) }

  // Every prefix of the log is the log of some first commands of the run.
  lemma {:induction false} LogPrefix(s: State, cmds: seq<Received>, k: nat) returns (m: nat)
    requires StateOk(s) && s.nextId > 0 && Replayable(cmds) && k <= |LiveRun(s, cmds).1|
    ensures m <= |cmds| && LiveRun(s, cmds[..m]).1 == LiveRun(s, cmds).1[..k]
    decreases |cmds|
  {
    hide LiveStep;
    var log := LiveRun(s, cmds).1;
    m := |cmds|;
    assert cmds[..m] == cmds && log[..|log|] == log;
    if k < |log| {
      var p := cmds[..|cmds| - 1];
      var (o, clientId) := cmds[|cmds| - 1];
      LogGrowsByOne(LiveRun(s, p).0, o, clientId);
      m := LogPrefix(s, p, k);
      assert p[..m] == cmds[..m];
    }
  }

  lemma LogGrowsByOne(s: State, o: Order, clientId: nat)
    requires StateOk(s)
    ensures |LiveStep(s, o, clientId).1| <= 1
  {
    hide CancelStep, SubmitStep;
  }

  lemma {:induction false} NeverFullTake(s: State, cmds: seq<Received>, m: nat)
    requires StateOk(s) && NeverFull(s, cmds) && m <= |cmds|
    ensures NeverFull(s, cmds[..m])
    decreases |cmds|
  {
    hide LiveRun, Refused;
    if m < |cmds| {
      var p := cmds[..|cmds| - 1];
      NeverFullTake(s, p, m);
      assert p[..m] == cmds[..m];
    } else {
      assert cmds[..m] == cmds;
    }
  }

  lemma AllowedTake(s: State, cmds: seq<Received>, m: nat)
    requires StateOk(s) && Allowed(s, cmds) && m <= |cmds|
    ensures Allowed(s, cmds[..m])
  {
    hide LiveRun, Command;
    var p := cmds[..m];
    forall i | 0 <= i < |p| ensures Command(LiveRun(s, p[..i]).0, p[i].0) {
      assert p[..i] == cmds[..i];
      AllowedAt(s, cmds, i);
    }
  }

  // The log file of an admitted run, cut anywhere behind its file header: recovery accepts what is read
  // and reaches a state that the run went through.
  lemma {:induction false} CrashRecovery(s: State, cmds: seq<Received>, rs: seq<Record>, n: nat) returns (m: nat)
    requires StateOk(s) && s.nextId > 0 && Allowed(s, cmds) && NeverFull(s, cmds)
    requires (forall r :: r in rs ==> Written(r)) && OrdersOf(rs) == LiveRun(s, cmds).1
    requires FILE_HEADER_SIZE <= n <= |FILE_HEADER + EncodeAll(rs)|
    ensures m <= |cmds| && StateOk(EraseState(s))
    ensures var log := Parse((FILE_HEADER + EncodeAll(rs))[..n]);
            && log.Log? && |log.records| == (n - FILE_HEADER_SIZE) / RECORD_SIZE
            && OrdersOf(log.records) == LiveRun(s, cmds[..m]).1
            && Recoverable(EraseState(s), OrdersOf(log.records))
            && ReplayAll(EraseState(s), OrdersOf(log.records)) == EraseState(LiveRun(s, cmds[..m]).0)
  {
    hide EncodeAll, Parse, Written, LiveRun, ReplayAll, EraseBooks, NeverFull, Allowed, Recoverable;
    AllowedIsReplayable(s, cmds);
    TruncationKeepsPrefix(rs, n);
    var k := (n - FILE_HEADER_SIZE) / RECORD_SIZE;
    m := LogPrefix(s, cmds, k);
    NeverFullTake(s, cmds, m);
    AllowedTake(s, cmds, m);
    LogIsRecoverable(s, cmds[..m]);
    assert OrdersOf(rs[..k]) == OrdersOf(rs)[..k];
  }
}
