/**
 The timeout, told from calls and answers alone: it runs from the moment the last MO call returns, for as long as was
 asked for when the transaction was started, and never before the first MO call has returned.
*/
module IdleTimeout {
  import opened Common
  import opened TransactionService
  import opened TransactionProofs
  import opened TransactionLifetime
  import opened CommitDecisions

  // The clock shows how often it has ticked.
  lemma {:induction false} ClockCounts(s: Master, ops: seq<Op>)
    requires WellFormed(s)
    ensures Run(s, ops).now == s.now + Seconds(ops)
    decreases |ops|
  {
    if ops != [] {
      StepClock(s, ops[0]);
      ClockCounts(Step(s, ops[0]).master, ops[1..]);
    }
  }

  lemma {:induction false} StepClock(s: Master, op: Op)
    requires WellFormed(s)
    ensures Step(s, op).master.now == s.now + if op.Tick? then 1 else 0
  {
  }

  lemma {:induction false} OpenCallsSnoc(s: Master, ops: seq<Op>, op: Op, h: Handle)
    requires WellFormed(s)
    ensures Run(s, ops + [op]) == Step(Run(s, ops), op).master
    ensures OpenCalls(s, ops + [op], h) == OpenCalls(s, ops, h) + OpenCalls(Run(s, ops), [op], h)
    decreases |ops|
  {
    if ops == [] {
      assert [] + [op] == [op];
      assert [op][1..] == [];
    } else {
      assert (ops + [op])[0] == ops[0] && (ops + [op])[1..] == ops[1..] + [op];
      OpenCallsSnoc(Step(s, ops[0]).master, ops[1..], op, h);
    }
  }

  // The return of the last outstanding MO call starts the timer.
  lemma {:induction false} LastReturnStarts(s: Master, h: Handle)
    requires Timely(s) && Step(s, EndMoCall(h)).code == Ok && Pending(s, h) == 1
    ensures var t := Step(s, EndMoCall(h)).master;
      && IdleHere(t, h) && t.txs[h].timer == Idle(s.now) && t.now == s.now
      && t.txs[h].timeout == s.txs[h].timeout && h in s.txs
  {
    StepTimely(s, EndMoCall(h));
  }

  lemma {:induction false} NotOpenNoReturn(s: Master, h: Handle)
    requires Timely(s) && Step(s, EndMoCall(h)).code == Ok
    ensures Alive(s, h) && Pending(s, h) > 0
  {
  }

  // At the last return of a run from the start of transaction h.
  lemma {:induction false} IdleAfterLastReturn(s: Master, policy: LockPolicy, timeout: nat, work: seq<Op>)
    requires Timely(s) && timeout <= 86400
    requires var h := |s.log|; var u := Step(s, New(policy, timeout)).master;
      Step(Run(u, work), EndMoCall(h)).code == Ok && OpenCalls(u, work + [EndMoCall(h)], h) == 0
    ensures var h := |s.log|; var u := Step(s, New(policy, timeout)).master;
      var t := Step(Run(u, work), EndMoCall(h)).master;
      IdleHere(t, h) && t.txs[h].timer == Idle(t.now) && t.txs[h].timeout == timeout && t.now == Run(u, work).now
  {
    var h := |s.log|;
    var u := Step(s, New(policy, timeout)).master;
    var t := Run(u, work);
    StepTimely(s, New(policy, timeout));
    EveryRunTimely(u, work);
    OpenCallsSnoc(u, work, EndMoCall(h), h);
    NotOpenNoReturn(t, h);
    PendingIsOpenCalls(u, work, h);
    assert OpenCalls(t, [EndMoCall(h)], h) == -1 by {
      assert [EndMoCall(h)][1..] == [];
    }
    LastReturnStarts(t, h);
    TermsAreKept(s, policy, timeout, work);
  }

  // A transaction started with this timeout in any run, whose last outstanding MO call returns at the time n and which
  // nobody uses from then on, whatever is called on all others: before n + timeout, and for at least a second, it is
  // untouched; from then it is timed out for exactly 3600 seconds and answers TimeOut to any request; and after that it
  // is gone and answers NotExist.
  lemma {:induction false} UnusedTimesOut(validators: seq<nat>, before: seq<Op>, policy: LockPolicy, timeout: nat,
                                          work: seq<Op>, rest: seq<Op>, op: Op)
    requires timeout <= 86400 && !op.New? && !op.Tick?
    requires var s := Run(Init(validators), before); var h := |s.log|; var u := Step(s, New(policy, timeout)).master;
      && Step(Run(u, work), EndMoCall(h)).code == Ok && OpenCalls(u, work + [EndMoCall(h)], h) == 0
      && Elsewhere(rest, h) && op.tx == h
    ensures var s := Run(Init(validators), before); var h := |s.log|; var u := Step(s, New(policy, timeout)).master;
      var t := Step(Run(u, work), EndMoCall(h)).master;
      var w := Run(t, rest); var n := Seconds(before) + Seconds(work);
      var due := if timeout == 0 then n + 1 else n + timeout;
      var now := n + Seconds(rest);
      if now < due then h in w.txs && w.txs[h] == t.txs[h] && !w.txs[h].phase.TimedOut?
      else if now < due + 3600 then h in w.txs && w.txs[h].phase.TimedOut? && Step(w, op).code == TimeOut
      else h !in w.txs && Step(w, op).code == NotExist
  {
    var s := Run(Init(validators), before);
    var h := |s.log|;
    var u := Step(s, New(policy, timeout)).master;
    EveryRunTimely(Init(validators), before);
    ClockCounts(Init(validators), before);
    StepClock(s, New(policy, timeout));
    ClockCounts(u, work);
    IdleAfterLastReturn(s, policy, timeout, work);
    LeftAlone(Step(Run(u, work), EndMoCall(h)).master, h, rest);
  }

  // ------------------------------------------------------------------ not before the first return

  // MO calls on h that have returned.
  ghost function Returns(s: Master, ops: seq<Op>, h: Handle): nat
    requires WellFormed(s)
    decreases |ops|
  {
    if ops == [] then 0
    else
      var r := Step(s, ops[0]);
      (if ops[0] == EndMoCall(h) && r.code == Ok then 1 else 0) + Returns(r.master, ops[1..], h)
  }

  ghost predicate NotStarted(s: Master, h: Handle) {
    h in s.txs ==> !s.txs[h].phase.TimedOut? && !s.txs[h].timer.Idle?
  }

  lemma {:induction false} StepNotStarted(s: Master, op: Op, h: Handle)
    requires WellFormed(s) && NotStarted(s, h) && !(op == EndMoCall(h) && Step(s, op).code == Ok)
    ensures NotStarted(Step(s, op).master, h)
  {
  }

  // As long as no MO call on it has returned, no run lets a transaction time out.
  lemma {:induction false} NeverTimesOutUnused(s: Master, policy: LockPolicy, timeout: nat, ops: seq<Op>)
    requires WellFormed(s)
    requires Returns(Step(s, New(policy, timeout)).master, ops, |s.log|) == 0
    ensures NotStarted(Run(Step(s, New(policy, timeout)).master, ops), |s.log|)
  {
    RunNotStarted(Step(s, New(policy, timeout)).master, ops, |s.log|);
  }

  lemma {:induction false} RunNotStarted(s: Master, ops: seq<Op>, h: Handle)
    requires WellFormed(s) && NotStarted(s, h) && Returns(s, ops, h) == 0
    ensures NotStarted(Run(s, ops), h)
    decreases |ops|
  {
    if ops != [] {
      StepNotStarted(s, ops[0], h);
      RunNotStarted(Step(s, ops[0]).master, ops[1..], h);
    }
  }

  // ------------------------------------------------------------------ what a timeout does

  ghost predicate TimedOutAborted(s: Master) {
    forall h <- s.txs :: h < |s.log| && (s.txs[h].phase.TimedOut? ==> AllAborted(s.log[h]))
  }

  lemma {:induction false} ServedKeepsTimedOut(s: Master, op: Op)
    requires Consistent(s) && TimedOutAborted(s) && !op.New? && !op.Tick?
    requires op.tx in s.txs && !s.txs[op.tx].phase.TimedOut?
    ensures TimedOutAborted(Served(s, op).master)
  {
    var t := Served(s, op).master;
    assert forall k <- t.txs :: k != op.tx ==> k in s.txs && t.txs[k] == s.txs[k] && t.log[k] == s.log[k];
    assert op.tx in t.txs ==> !t.txs[op.tx].phase.TimedOut?;
  }

  lemma {:induction false} TickTimesOut(s: Master, env: Environment)
    requires Consistent(s) && TimedOutAborted(s)
    ensures TimedOutAborted(Ticked(s, env))
  {
    var t := Ticked(s, env);
    forall h | h in t.txs && t.txs[h].phase.TimedOut? ensures AllAborted(t.log[h]) {
      if Expires(s.txs[h], s.now + 1) {
        assert RecordOk(s, h);
        AbortOk(s.log[h], env);
      }
    }
  }

  lemma {:induction false} StepTimesOut(s: Master, op: Op)
    requires Consistent(s) && TimedOutAborted(s)
    ensures TimedOutAborted(Step(s, op).master)
  {
    match op {
      case New(_, _) =>
      case Tick(env) => TickTimesOut(s, env);
      case _ =>
        if op.tx in s.txs && !s.txs[op.tx].phase.TimedOut? {
          ServedKeepsTimedOut(s, op);
        }
    }
  }

  // In every run, whoever took part in a transaction that has timed out was aborted and told to finish.
  lemma {:induction false} TimedOutMeansAborted(s: Master, ops: seq<Op>)
    requires Consistent(s) && TimedOutAborted(s)
    ensures TimedOutAborted(Run(s, ops))
    decreases |ops|
  {
    if ops != [] {
      StepKeeps(s, ops[0]);
      StepTimesOut(s, ops[0]);
      TimedOutMeansAborted(Step(s, ops[0]).master, ops[1..]);
    }
  }
}
