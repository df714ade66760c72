/**
 The life of a transaction: it only moves forward, the idle timer never fires during an outstanding
 MO call, and a timed-out transaction is remembered until its next use or for 3600 seconds.
*/
module TransactionLifetime {
  import opened Common
  import opened TransactionService
  import opened TransactionProofs

  // Not yet handed out, open, prepared, timed out but remembered, forgotten.
  function Stage(s: Master, h: Handle): nat {
    if h >= |s.log| then 0
    else if h !in s.txs then 4
    else match s.txs[h].phase
      case Active => 1
      case Prepared => 2
      case TimedOut(_) => 3
  }

  lemma {:induction false} ServedForward(s: Master, op: Op, h: Handle)
    requires WellFormed(s) && !op.New? && !op.Tick?
    requires op.tx in s.txs && !s.txs[op.tx].phase.TimedOut?
    ensures Stage(s, h) <= Stage(Served(s, op).master, h)
  {
  }

  lemma {:induction false} StageForward(s: Master, op: Op, h: Handle)
    requires WellFormed(s)
    ensures Stage(s, h) <= Stage(Step(s, op).master, h)
  {
    if !op.New? && !op.Tick? {
      if op.tx in s.txs && !s.txs[op.tx].phase.TimedOut? {
        ServedForward(s, op, h);
      }
    }
  }

  lemma {:induction false} RunForward(s: Master, ops: seq<Op>, h: Handle)
    requires WellFormed(s)
    ensures Stage(s, h) <= Stage(Run(s, ops), h)
    decreases |ops|
  {
    if ops != [] {
      StageForward(s, ops[0], h);
      RunForward(Step(s, ops[0]).master, ops[1..], h);
    }
  }

  // Once forgotten, a handle answers NotExist for ever, whatever else happens in between.
  lemma {:induction false} ForgottenForever(s: Master, ops: seq<Op>, op: Op)
    requires WellFormed(s) && !op.New? && !op.Tick?
    requires op.tx < |s.log| && op.tx !in s.txs
    ensures Step(Run(s, ops), op) == Reply(Run(s, ops), NotExist)
  {
    RunForward(s, ops, op.tx);
  }

  // ------------------------------------------------------------------ the timer

  ghost predicate TimelyTx(tx: Tx, now: nat) {
    match tx.phase
    case TimedOut(at) => at <= now < at + REMEMBERED
    case _ =>
      match tx.timer
      case Stopped => true
      case Outstanding(n) => n > 0
      case Idle(since) => since == now || since < now < since + tx.timeout
  }

  ghost predicate Timely(s: Master) {
    WellFormed(s) && forall h <- s.txs :: TimelyTx(s.txs[h], s.now)
  }

  lemma {:induction false} ServedTimely(s: Master, op: Op)
    requires Timely(s) && !op.New? && !op.Tick?
    requires op.tx in s.txs && !s.txs[op.tx].phase.TimedOut?
    ensures Timely(Served(s, op).master)
  {
    var t := Served(s, op).master;
    assert TimelyTx(s.txs[op.tx], s.now);
    assert op.tx in t.txs ==> TimelyTx(t.txs[op.tx], t.now);
    assert forall h <- t.txs :: h != op.tx ==> h in s.txs && t.txs[h] == s.txs[h];
  }

  lemma {:induction false} TickedTimely(s: Master, env: Environment)
    requires Timely(s)
    ensures Timely(Ticked(s, env))
  {
    forall h | h in Ticked(s, env).txs ensures TimelyTx(Ticked(s, env).txs[h], s.now + 1) {
      assert TimelyTx(s.txs[h], s.now);
    }
  }

  lemma {:induction false} StepTimely(s: Master, op: Op)
    requires Timely(s)
    ensures Timely(Step(s, op).master)
  {
    match op {
      case New(_, _) =>
      case Tick(env) => TickedTimely(s, env);
      case _ =>
        if op.tx in s.txs && !s.txs[op.tx].phase.TimedOut? {
          ServedTimely(s, op);
        }
    }
  }

  lemma {:induction false} EveryRunTimely(s: Master, ops: seq<Op>)
    requires Timely(s)
    ensures Timely(Run(s, ops))
    decreases |ops|
  {
    if ops != [] {
      StepTimely(s, ops[0]);
      EveryRunTimely(Step(s, ops[0]).master, ops[1..]);
    }
  }

  // MO calls on h that were accepted and have not returned, read off the calls and their answers alone.
  ghost function OpenCalls(s: Master, ops: seq<Op>, h: Handle): int
    requires WellFormed(s)
    decreases |ops|
  {
    if ops == [] then 0
    else
      var r := Step(s, ops[0]);
      (if ops[0] == BeginMoCall(h) && r.code == Ok then 1
       else if ops[0] == EndMoCall(h) && r.code == Ok then -1 else 0) + OpenCalls(r.master, ops[1..], h)
  }

  predicate Alive(s: Master, h: Handle) {
    h in s.txs && !s.txs[h].phase.TimedOut?
  }

  function Pending(s: Master, h: Handle): nat {
    if h in s.txs && s.txs[h].timer.Outstanding? then s.txs[h].timer.calls else 0
  }

  // Work on h that leaves it alive counts one call more if it begins one.
  lemma {:induction false} WorkCounts(s: Master, op: Op, h: Handle)
    requires Timely(s) && IsWork(op) && op.tx == h && Alive(s, h)
    requires Alive(Worked(s, op).master, h)
    ensures Pending(Worked(s, op).master, h) == Pending(s, h) + if op.BeginMoCall? then 1 else 0
    ensures op.BeginMoCall? ==> Worked(s, op).code == Ok
  {
  }

  lemma {:induction false} ServedCounts(s: Master, op: Op, h: Handle)
    requires Timely(s) && !op.New? && !op.Tick? && op.tx == h && Alive(s, h)
    requires Alive(Served(s, op).master, h)
    ensures Pending(Served(s, op).master, h) == Pending(s, h) +
      (if op == BeginMoCall(h) && Served(s, op).code == Ok then 1
       else if op == EndMoCall(h) && Served(s, op).code == Ok then -1 else 0)
  {
    if IsWork(op) {
      if !s.txs[h].phase.Prepared? {
        WorkCounts(s, op, h);
      }
    } else if op.EndMoCall? {
      assert TimelyTx(s.txs[h], s.now);
    }
  }

  lemma {:induction false} StepCounts(s: Master, op: Op, h: Handle)
    requires Timely(s) && Alive(Step(s, op).master, h)
    ensures Pending(Step(s, op).master, h) == Pending(s, h) +
      (if op == BeginMoCall(h) && Step(s, op).code == Ok then 1
       else if op == EndMoCall(h) && Step(s, op).code == Ok then -1 else 0)
  {
    StageForward(s, op, h);
    if op.New? {
      assert h in s.txs ==> Step(s, op).master.txs[h] == s.txs[h];
    } else if op.Tick? {
      assert Ticked(s, op.env).txs[h].timer == s.txs[h].timer;
    } else if op.tx != h {
      OthersLeaveAlone(s, op, h);
    } else {
      ServedCounts(s, op, h);
    }
  }

  // Before a handle is given out no call on it is accepted.
  lemma {:induction false} NeverOpened(s: Master, op: Op, h: Handle)
    requires Timely(s) && Stage(Step(s, op).master, h) == 0
    ensures Pending(s, h) == 0 && h !in s.txs && h !in Step(s, op).master.txs
    ensures op == BeginMoCall(h) || op == EndMoCall(h) ==> Step(s, op).code != Ok
  {
    StageForward(s, op, h);
  }

  lemma {:induction false} PendingIsOpenCalls(s: Master, ops: seq<Op>, h: Handle)
    requires Timely(s) && Alive(Run(s, ops), h)
    ensures Pending(Run(s, ops), h) == Pending(s, h) + OpenCalls(s, ops, h)
    decreases |ops|
  {
    if ops != [] {
      var t := Step(s, ops[0]).master;
      StepTimely(s, ops[0]);
      PendingIsOpenCalls(t, ops[1..], h);
      RunForward(t, ops[1..], h);
      if Alive(t, h) {
        StepCounts(s, ops[0], h);
      } else {
        NeverOpened(s, ops[0], h);
      }
    }
  }

  // In no run does the timer fire while an MO call on the transaction is outstanding.
  lemma {:induction false} NoTimeoutDuringMoCall(validators: seq<nat>, ops: seq<Op>, h: Handle, env: Environment)
    requires Alive(Run(Init(validators), ops), h)
    requires OpenCalls(Init(validators), ops, h) > 0
    ensures var s := Run(Init(validators), ops);
      h in Ticked(s, env).txs && Ticked(s, env).txs[h] == s.txs[h]
  {
    PendingIsOpenCalls(Init(validators), ops, h);
  }

  // Everything but requests on h: new transactions, the clock, and any requests on other transactions.
  ghost predicate Elsewhere(ops: seq<Op>, h: Handle) {
    forall op <- ops :: op.New? || op.Tick? || op.tx != h
  }

  function Seconds(ops: seq<Op>): nat {
    if ops == [] then 0 else (if ops[0].Tick? then 1 else 0) + Seconds(ops[1..])
  }

  lemma {:induction false} OthersLeaveAlone(s: Master, op: Op, h: Handle)
    requires WellFormed(s) && h in s.txs && !op.Tick? && (op.New? || op.tx != h)
    ensures var t := Step(s, op).master; h in t.txs && t.txs[h] == s.txs[h] && t.now == s.now
  {
  }

  function Max(a: nat, b: nat): nat { if a < b then b else a }

  // When an idle transaction left alone times out.
  function Due(s: Master, h: Handle): nat
    requires h in s.txs && s.txs[h].timer.Idle?
  {
    Max(s.txs[h].timer.since + s.txs[h].timeout, s.now + 1)
  }

  ghost predicate IdleHere(s: Master, h: Handle) {
    Timely(s) && h in s.txs && !s.txs[h].phase.TimedOut? && s.txs[h].timer.Idle?
  }

  lemma {:induction false} IdleTick(s: Master, h: Handle, env: Environment)
    requires IdleHere(s, h)
    ensures var t := Ticked(s, env);
      && Timely(t) && h in t.txs
      && (if s.now + 1 < Due(s, h) then t.txs[h] == s.txs[h] && IdleHere(t, h) && Due(t, h) == Due(s, h)
          else t.txs[h].phase == TimedOut(Due(s, h)) && t.now == Due(s, h))
  {
    TickedTimely(s, env);
    assert TimelyTx(s.txs[h], s.now);
  }

  // An idle transaction that nobody uses, whatever happens to others: it is untouched before its timeout, remembered as
  // timed out for exactly REMEMBERED seconds from then on, and forgotten afterwards.
  lemma {:induction false} LeftAlone(s: Master, h: Handle, ops: seq<Op>)
    requires IdleHere(s, h) && Elsewhere(ops, h)
    ensures var t := Run(s, ops); var now := s.now + Seconds(ops);
      if now < Due(s, h) then h in t.txs && t.txs[h] == s.txs[h]
      else if now < Due(s, h) + REMEMBERED then h in t.txs && t.txs[h].phase == TimedOut(Due(s, h))
      else h !in t.txs
    decreases |ops|
  {
    if ops != [] {
      var t := Step(s, ops[0]).master;
      StepTimely(s, ops[0]);
      assert ops[0] in ops;
      if !ops[0].Tick? {
        OthersLeaveAlone(s, ops[0], h);
        LeftAlone(t, h, ops[1..]);
      } else {
        IdleTick(s, h, ops[0].env);
        if s.now + 1 < Due(s, h) {
          LeftAlone(t, h, ops[1..]);
        } else {
          Remembered(t, h, ops[1..]);
        }
      }
    }
  }

  lemma {:induction false} Remembered(s: Master, h: Handle, ops: seq<Op>)
    requires Timely(s) && h in s.txs && s.txs[h].phase.TimedOut? && Elsewhere(ops, h)
    ensures var t := Run(s, ops);
      if s.now + Seconds(ops) < s.txs[h].phase.at + REMEMBERED then h in t.txs && t.txs[h] == s.txs[h]
      else h !in t.txs
    decreases |ops|
  {
    if ops != [] {
      var t := Step(s, ops[0]).master;
      StepTimely(s, ops[0]);
      assert ops[0] in ops;
      if !ops[0].Tick? {
        OthersLeaveAlone(s, ops[0], h);
        Remembered(t, h, ops[1..]);
      } else if h in t.txs {
        Remembered(t, h, ops[1..]);
      } else {
        StaysGone(t, ops[1..], h);
      }
    } else {
      assert TimelyTx(s.txs[h], s.now);
    }
  }

  lemma {:induction false} StaysGone(s: Master, ops: seq<Op>, h: Handle)
    requires WellFormed(s) && h < |s.log| && h !in s.txs
    ensures h !in Run(s, ops).txs
  {
    RunForward(s, ops, h);
  }

  // When the timer fires every participant hears abort and then finish; the next request on the handle is
  // answered TimeOut, and the one after it NotExist.
  lemma {:induction false} TimeoutAborts(s: Master, h: Handle, env: Environment, op: Op, again: Op)
    requires Consistent(s) && h in s.txs && Expires(s.txs[h], s.now + 1)
    requires !op.New? && !op.Tick? && op.tx == h
    requires !again.New? && !again.Tick? && again.tx == h
    ensures var t := Ticked(s, env);
      && AllAborted(t.log[h])
      && Step(t, op).code == TimeOut
      && Step(t, op).master.log == t.log
      && Step(Step(t, op).master, again).code == NotExist
  {
    TickKeeps(s, env);
    assert RecordOk(s, h);
    AbortOk(s.log[h], env);
  }

  // ------------------------------------------------------------------ contexts

  function ContextOf(s: Master, h: Handle, r: Resource): Option<int> {
    if h in s.txs && r in s.txs[h].contexts then Some(s.txs[h].contexts[r]) else None
  }

  lemma {:induction false} StepKeepsContext(s: Master, op: Op, h: Handle, r: Resource)
    requires WellFormed(s) && h in s.txs && h in Step(s, op).master.txs
    requires !(op.SetContext? && op.tx == h && op.resource == r)
    ensures ContextOf(Step(s, op).master, h, r) == ContextOf(s, h, r)
  {
  }

  lemma {:induction false} ContextStays(s: Master, ops: seq<Op>, h: Handle, r: Resource)
    requires WellFormed(s) && h in s.txs && h in Run(s, ops).txs
    requires forall op :: op in ops && op.SetContext? ==> !(op.tx == h && op.resource == r)
    ensures ContextOf(Run(s, ops), h, r) == ContextOf(s, h, r)
    decreases |ops|
  {
    if ops != [] {
      var t := Step(s, ops[0]).master;
      if h !in t.txs {
        StaysGone(t, ops[1..], h);
      } else {
        assert ops[0] in ops;
        StepKeepsContext(s, ops[0], h, r);
        ContextStays(t, ops[1..], h, r);
      }
    }
  }

  // A context set for a participant is what it gets back, through anything that happens to the transaction or to
  // other participants' contexts, for as long as the transaction is remembered.
  lemma {:induction false} ContextIsRemembered(s: Master, h: Handle, r: Resource, context: int, ops: seq<Op>)
    requires WellFormed(s) && Step(s, SetContext(h, r, context)).code == Ok
    requires forall op :: op in ops && op.SetContext? ==> !(op.tx == h && op.resource == r)
    requires h in Run(Step(s, SetContext(h, r, context)).master, ops).txs
    ensures ContextOf(Run(Step(s, SetContext(h, r, context)).master, ops), h, r) == Some(context)
  {
    ContextStays(Step(s, SetContext(h, r, context)).master, ops, h, r);
  }
}
