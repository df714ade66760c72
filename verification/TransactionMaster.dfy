/**
 The imperative coordinator.  Loops ask the participants one at a time; what was asked is kept in the
 ghost log.  Each operation is proved to be one Step of the value machine in TransactionService.
*/
module TransactionMasterModule {
  import opened Common
  import opened TransactionService

  // Ask everyone on the list, whatever each of them answers.
  method AskAll(kind: Kind, whos: seq<nat>, env: Environment) returns (calls: seq<Call>, ok: bool)
    ensures calls == Broadcast(kind, whos, env)
    ensures ok <==> AllOk(kind, whos, env)
  {
    calls, ok := [], true;
    for i := 0 to |whos|
      invariant calls + Broadcast(kind, whos[i..], env) == Broadcast(kind, whos, env)
      invariant ok <==> AllOk(kind, whos[..i], env)
    {
      var answer := env(kind, whos[i]);
      calls := calls + [Call(kind, whos[i], answer)];
      if answer != Ok {
        ok := false;
      }
      assert whos[..i + 1] == whos[..i] + [whos[i]];
    }
    assert whos[..|whos|] == whos;
  }

  // Ask participants to prepare, stopping at the first refusal.
  method AskToPrepare(parts: seq<Resource>, env: Environment) returns (calls: seq<Call>, ok: bool)
    ensures calls == PrepareCalls(parts, env)
    ensures ok <==> AllOk(Prepare, parts, env)
  {
    calls, ok := [], true;
    var i := 0;
    while i < |parts| && ok
      invariant 0 <= i <= |parts|
      invariant forall j :: 0 <= j < i - 1 ==> env(Prepare, parts[j]) == Ok
      invariant i > 0 ==> (ok <==> env(Prepare, parts[i - 1]) == Ok)
      invariant i == 0 ==> ok
      invariant calls == Broadcast(Prepare, parts[..i], env)
    {
      var answer := env(Prepare, parts[i]);
      BroadcastSnoc(Prepare, parts[..i], parts[i], env);
      assert parts[..i + 1] == parts[..i] + [parts[i]];
      calls := calls + [Call(Prepare, parts[i], answer)];
      ok := answer == Ok;
      i := i + 1;
    }
    AskedUnique(parts, env, i);
  }

  lemma {:induction false} BroadcastSnoc(kind: Kind, whos: seq<nat>, w: nat, env: Environment)
    ensures Broadcast(kind, whos + [w], env) == Broadcast(kind, whos, env) + [Call(kind, w, env(kind, w))]
  {
    if whos != [] {
      assert (whos + [w])[1..] == whos[1..] + [w];
      BroadcastSnoc(kind, whos[1..], w, env);
    }
  }

  // The number asked is determined by what it means.
  lemma {:induction false} AskedUnique(parts: seq<Resource>, env: Environment, n: nat)
    requires n <= |parts|
    requires forall i :: 0 <= i < n - 1 ==> env(Prepare, parts[i]) == Ok
    requires n == |parts| || (n > 0 && env(Prepare, parts[n - 1]) != Ok)
    ensures n == Asked(parts, env)
  {
  }

  // The clock's effect on the transaction h alone.
  ghost predicate TickedOne(a: Master, b: Master, h: Handle, env: Environment) {
    && |b.log| == |a.log| && b.now == a.now && b.validators == a.validators
    && (forall k :: k != h ==> (k in b.txs <==> k in a.txs))
    && (forall k <- b.txs :: k != h ==> b.txs[k] == a.txs[k])
    && (forall k :: 0 <= k < |a.log| && k != h ==> b.log[k] == a.log[k])
    && (h in b.txs <==> h in a.txs && !Forgotten(a.txs[h], a.now))
    && (h in b.txs ==>
          b.txs[h] == if Expires(a.txs[h], a.now) then a.txs[h].(phase := TimedOut(a.now)) else a.txs[h])
    && (h < |a.log| ==>
          b.log[h] == if h in a.txs && Expires(a.txs[h], a.now)
                      then Record(a.log[h].parts, a.log[h].calls + AbortCalls(a.log[h].parts, env))
                      else a.log[h])
  }

  // The clock has dealt with every handle below h.
  ghost predicate TickedBelow(a: Master, b: Master, h: Handle, env: Environment)
    requires WellFormed(a)
  {
    var after := Ticked(a, env);
    && |b.log| == |a.log| && b.now == after.now && b.validators == a.validators
    && (forall k :: k in b.txs <==> if k < h then k in after.txs else k in a.txs)
    && (forall k <- b.txs :: b.txs[k] == if k < h then after.txs[k] else a.txs[k])
    && (forall k :: 0 <= k < |a.log| ==> b.log[k] == if k < h then after.log[k] else a.log[k])
  }

  lemma {:induction false} TickedBelowStep(a: Master, b: Master, c: Master, h: Handle, env: Environment)
    requires WellFormed(a) && h < |a.log| && TickedBelow(a, b, h, env) && TickedOne(b, c, h, env)
    ensures TickedBelow(a, c, h + 1, env)
  {
  }

  lemma {:induction false} TickedBelowAll(a: Master, b: Master, env: Environment)
    requires WellFormed(a) && TickedBelow(a, b, |a.log|, env)
    ensures b == Ticked(a, env)
  {
    var after := Ticked(a, env);
    assert b.log == after.log;
    assert b.txs == after.txs;
  }

  class TransactionMaster {
    const validators: seq<nat>
    var now: nat
    var next: Handle
    var txs: map<Handle, Tx>
    ghost var log: seq<Record>

    ghost predicate Valid()
      reads this
    {
      next == |log| && WellFormed(State())
    }

    ghost function State(): Master
      reads this
    {
      Master(validators, now, txs, log)
    }

    constructor (validators: seq<nat>)
      ensures Valid() && State() == Init(validators)
    {
      this.validators := validators;
      now, next, txs, log := 0, 0, map[], [];
    }

    method NewTransaction(policy: LockPolicy, timeout: nat) returns (rc: ReturnCode, h: Handle)
      requires Valid()
      modifies this
      ensures Valid() && Reply(State(), rc) == old(Step(State(), New(policy, timeout)))
      ensures rc == Ok ==> h !in old(txs) && h in txs && h == old(next)
    {
      h := next;
      if timeout > MAX_TIMEOUT {
        rc := InvalidArgument;
        return;
      }
      txs := txs[next := Tx(policy, timeout, Active, [], map[], Stopped)];
      log := log + [Record([], [])];
      next := next + 1;
      rc := Ok;
    }

    // Ok when the transaction can serve a request; a timed-out transaction is forgotten on first use.
    method Use(h: Handle) returns (rc: ReturnCode)
      requires Valid()
      modifies this
      ensures Valid() && log == old(log) && now == old(now)
      ensures rc == (if h !in old(txs) then NotExist else if old(txs[h].phase).TimedOut? then TimeOut else Ok)
      ensures txs == if rc == TimeOut then old(txs) - {h} else old(txs)
    {
      if h !in txs {
        rc := NotExist;
      } else if txs[h].phase.TimedOut? {
        txs := txs - {h};
        rc := TimeOut;
      } else {
        rc := Ok;
      }
    }

    // As Use, but refused after an explicit prepare.
    method UseForWork(h: Handle) returns (rc: ReturnCode)
      requires Valid()
      modifies this
      ensures Valid() && log == old(log) && now == old(now)
      ensures rc == (if h !in old(txs) then NotExist else if old(txs[h].phase).TimedOut? then TimeOut
                     else if old(txs[h].phase).Prepared? then Failure else Ok)
      ensures txs == if rc == TimeOut then old(txs) - {h} else old(txs)
    {
      rc := Use(h);
      if rc == Ok && txs[h].phase.Prepared? {
        rc := Failure;
      }
    }

    method RegisterParticipant(h: Handle, resource: Resource) returns (rc: ReturnCode)
      requires Valid()
      modifies this
      ensures Valid() && Reply(State(), rc) == old(Step(State(), Register(h, resource)))
    {
      rc := UseForWork(h);
      if rc == Ok {
        if resource in txs[h].parts {
          rc := AlreadyExist;
        } else {
          txs := txs[h := txs[h].(parts := txs[h].parts + [resource])];
          log := log[h := Record(txs[h].parts, log[h].calls)];
        }
      }
    }

    method IsRegistered(h: Handle, resource: Resource) returns (rc: ReturnCode, result: bool)
      requires Valid()
      modifies this
      ensures Valid() && Reply(State(), rc) == old(Step(State(), Query(h)))
      ensures rc == Ok ==> (result <==> resource in log[h].parts)
    {
      rc := Use(h);
      result := rc == Ok && resource in txs[h].parts;
    }

    method SetContextOf(h: Handle, resource: Resource, context: int) returns (rc: ReturnCode)
      requires Valid()
      modifies this
      ensures Valid() && Reply(State(), rc) == old(Step(State(), SetContext(h, resource, context)))
    {
      rc := UseForWork(h);
      if rc == Ok {
        if resource !in txs[h].parts {
          rc := NotExist;
        } else {
          txs := txs[h := txs[h].(contexts := txs[h].contexts[resource := context])];
        }
      }
    }

    // A context that was never set reads as absent.
    method GetContext(h: Handle, resource: Resource) returns (rc: ReturnCode, context: int)
      requires Valid()
      modifies this
      ensures Valid() && State() == old(Step(State(), Query(h))).master
      ensures old(Step(State(), Query(h))).code != Ok ==> rc == old(Step(State(), Query(h))).code
      ensures old(Step(State(), Query(h))).code == Ok ==>
                rc == if resource in txs[h].parts && resource in txs[h].contexts then Ok else NotExist
      ensures rc == Ok ==> context == old(txs)[h].contexts[resource]
    {
      context := 0;
      rc := Use(h);
      if rc == Ok {
        if resource in txs[h].parts && resource in txs[h].contexts {
          context := txs[h].contexts[resource];
        } else {
          rc := NotExist;
        }
      }
    }

    method GetLockPolicy(h: Handle) returns (rc: ReturnCode, policy: LockPolicy)
      requires Valid()
      modifies this
      ensures Valid() && Reply(State(), rc) == old(Step(State(), Query(h)))
      ensures rc == Ok ==> policy == old(txs)[h].policy
    {
      policy := LockWrite;
      rc := Use(h);
      if rc == Ok {
        policy := txs[h].policy;
      }
    }

    method BeginCall(h: Handle) returns (rc: ReturnCode)
      requires Valid()
      modifies this
      ensures Valid() && Reply(State(), rc) == old(Step(State(), BeginMoCall(h)))
    {
      rc := UseForWork(h);
      if rc == Ok {
        txs := txs[h := txs[h].(timer := MoreCalls(txs[h].timer))];
      }
    }

    method EndCall(h: Handle) returns (rc: ReturnCode)
      requires Valid()
      modifies this
      ensures Valid() && Reply(State(), rc) == old(Step(State(), EndMoCall(h)))
    {
      rc := Use(h);
      if rc == Ok {
        if !txs[h].timer.Outstanding? {
          rc := Failure;
        } else if txs[h].timer.calls <= 1 {
          txs := txs[h := txs[h].(timer := Idle(now))];
        } else {
          txs := txs[h := txs[h].(timer := Outstanding(txs[h].timer.calls - 1))];
        }
      }
    }

    // All external validators first; the participants only when every one of them passed.
    method RunValidation(parts: seq<Resource>, env: Environment) returns (calls: seq<Call>, passed: bool)
      ensures calls == ValidationCalls(validators, parts, env)
      ensures passed <==> Passes(validators, parts, env)
      ensures passed <==> (forall v <- validators :: env(Judge, v) == Ok) && forall r <- parts :: env(Accept, r) == Ok
    {
      calls, passed := AskAll(Judge, validators, env);
      if passed {
        var more;
        more, passed := AskAll(Accept, parts, env);
        calls := calls + more;
      }
    }

    method RunAbort(parts: seq<Resource>, env: Environment) returns (calls: seq<Call>)
      ensures calls == AbortCalls(parts, env)
    {
      var aborted, finished, ok;
      aborted, ok := AskAll(Abort, parts, env);
      finished, ok := AskAll(Finish, parts, env);
      calls := aborted + finished;
    }

    method RunSecondPhase(parts: seq<Resource>, env: Environment) returns (rc: ReturnCode, calls: seq<Call>)
      ensures Outcome(rc, calls) == SecondPhase(parts, env)
    {
      var committed, finished, ok, ignored;
      committed, ok := AskAll(Commit, parts, env);
      finished, ignored := AskAll(Finish, parts, env);
      calls := committed + finished;
      rc := if ok then Ok else CommitFailed;
    }

    method Validate(h: Handle, env: Environment) returns (rc: ReturnCode, result: bool)
      requires Valid()
      modifies this
      ensures Valid() && Reply(State(), rc) == old(Step(State(), ValidateTx(h, env)))
      ensures rc == Ok ==> (result <==> (forall v <- validators :: env(Judge, v) == Ok)
                                        && forall r <- log[h].parts :: env(Accept, r) == Ok)
    {
      result := false;
      rc := UseForWork(h);
      if rc == Ok {
        var calls;
        calls, result := RunValidation(txs[h].parts, env);
        log := log[h := Record(log[h].parts, log[h].calls + calls)];
      }
    }

    method ExplicitPrepareTx(h: Handle, env: Environment) returns (rc: ReturnCode)
      requires Valid()
      modifies this
      ensures Valid() && Reply(State(), rc) == old(Step(State(), ExplicitPrepare(h, env)))
    {
      rc := UseForWork(h);
      if rc == Ok {
        var parts := txs[h].parts;
        if parts == [] {
          rc := NotExist;
          return;
        }
        var calls, ok := AskToPrepare(parts, env);
        if ok {
          txs := txs[h := txs[h].(phase := Prepared)];
        } else {
          var aborts := RunAbort(parts, env);
          calls := calls + aborts;
          txs := txs - {h};
          rc := PrepareFailed;
        }
        log := log[h := Record(log[h].parts, log[h].calls + calls)];
      }
    }

    method CommitTransaction(h: Handle, env: Environment) returns (rc: ReturnCode)
      requires Valid()
      modifies this
      ensures Valid() && Reply(State(), rc) == old(Step(State(), CommitTx(h, env)))
    {
      rc := Use(h);
      if rc == Ok {
        var parts := txs[h].parts;
        if parts == [] {
          rc := NotExist;
          return;
        }
        var calls, ok := RunValidation(parts, env);
        var more;
        if !ok {
          more := RunAbort(parts, env);
          rc := ValidationFailed;
        } else {
          if !txs[h].phase.Prepared? {
            more, ok := AskToPrepare(parts, env);
            calls := calls + more;
          }
          if ok {
            rc, more := RunSecondPhase(parts, env);
          } else {
            more := RunAbort(parts, env);
            rc := PrepareFailed;
          }
        }
        calls := calls + more;
        txs := txs - {h};
        log := log[h := Record(log[h].parts, log[h].calls + calls)];
      }
    }

    method AbortTransaction(h: Handle, env: Environment) returns (rc: ReturnCode)
      requires Valid()
      modifies this
      ensures Valid() && Reply(State(), rc) == old(Step(State(), AbortTx(h, env)))
    {
      rc := Use(h);
      if rc == Ok {
        var calls := RunAbort(txs[h].parts, env);
        txs := txs - {h};
        log := log[h := Record(log[h].parts, log[h].calls + calls)];
      }
    }

    method TickOne(h: Handle, env: Environment)
      requires Valid() && h < next
      modifies this`txs, this`log
      ensures Valid() && TickedOne(old(State()), State(), h, env)
    {
      if h in txs {
        var tx := txs[h];
        if Forgotten(tx, now) {
          txs := txs - {h};
        } else if Expires(tx, now) {
          var calls := RunAbort(tx.parts, env);
          log := log[h := Record(log[h].parts, log[h].calls + calls)];
          txs := txs[h := tx.(phase := TimedOut(now))];
        }
      }
    }

    // One second passes: idle transactions are aborted, remembered ones may be forgotten.
    method AdvanceClock(env: Environment)
      requires Valid()
      modifies this
      ensures Valid() && State() == old(Ticked(State(), env))
    {
      ghost var before := State();
      now := now + 1;
      for h := 0 to next
        invariant Valid() && next == |before.log|
        invariant TickedBelow(before, State(), h, env)
      {
        ghost var current := State();
        TickOne(h, env);
        TickedBelowStep(before, current, State(), h, env);
      }
      TickedBelowAll(before, State(), env);
    }
  }
}
