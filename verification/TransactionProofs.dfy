/**
 What the two-phase-commit coordinator promises, for every run, any number of participants and any
 answers: the decision is atomic, return codes tell what each participant was told, explicit
 prepare refines plain commit, and a transaction's life only moves forward.
*/
module TransactionProofs {
  import opened Common
  import opened TransactionService

  // ------------------------------------------------------------------ what one participant hears

  predicate IsVerdict(k: Kind) { k == Judge || k == Accept }

  // The protocol calls that reached participant r, in order; verdict requests are not among them.
  function Heard(calls: seq<Call>, r: Resource): seq<Call> {
    if calls == [] then []
    else (if !IsVerdict(calls[0].kind) && calls[0].who == r then [calls[0]] else []) + Heard(calls[1..], r)
  }

  lemma {:induction false} HeardConcat(a: seq<Call>, b: seq<Call>, r: Resource)
    ensures Heard(a + b, r) == Heard(a, r) + Heard(b, r)
  {
    if a == [] {
      assert a + b == b;
    } else {
      assert (a + b)[1..] == a[1..] + b;
      HeardConcat(a[1..], b, r);
    }
  }

  lemma {:induction false} HeardTwo(a: seq<Call>, b: seq<Call>, c: seq<Call>, r: Resource)
    requires Heard(a, r) == [] && Heard(b, r) == []
    ensures Heard(a + (b + c), r) == Heard(c, r)
  {
    HeardConcat(b, c, r);
    HeardConcat(a, b + c, r);
  }

  lemma {:induction false} HeardKeeps(calls: seq<Call>, c: Call)
    requires c in calls && !IsVerdict(c.kind)
    ensures c in Heard(calls, c.who)
  {
    if calls[0] != c {
      HeardKeeps(calls[1..], c);
    }
  }

  lemma {:induction false} BroadcastAt(kind: Kind, whos: seq<nat>, env: Environment)
    ensures |Broadcast(kind, whos, env)| == |whos|
    ensures forall i :: 0 <= i < |whos| ==>
      Broadcast(kind, whos, env)[i] == Call(kind, whos[i], env(kind, whos[i]))
  {
    if whos != [] {
      BroadcastAt(kind, whos[1..], env);
    }
  }

  lemma {:induction false} HeardBroadcast(kind: Kind, whos: seq<nat>, env: Environment, r: Resource)
    requires NoDup(whos)
    ensures Heard(Broadcast(kind, whos, env), r) ==
      if !IsVerdict(kind) && r in whos then [Call(kind, r, env(kind, r))] else []
  {
    if whos != [] {
      NoDupTail(whos);
      HeardBroadcast(kind, whos[1..], env, r);
      var c := Broadcast(kind, whos, env);
      assert c[1..] == Broadcast(kind, whos[1..], env);
      assert whos == [whos[0]] + whos[1..];
    }
  }

  lemma {:induction false} HeardVerdicts(kind: Kind, whos: seq<nat>, env: Environment, r: Resource)
    requires IsVerdict(kind)
    ensures Heard(Broadcast(kind, whos, env), r) == []
  {
    if whos != [] {
      HeardVerdicts(kind, whos[1..], env, r);
      assert Broadcast(kind, whos, env)[1..] == Broadcast(kind, whos[1..], env);
    }
  }

  lemma {:induction false} HeardValidation(validators: seq<nat>, parts: seq<Resource>, env: Environment, r: Resource)
    ensures Heard(ValidationCalls(validators, parts, env), r) == []
  {
    HeardVerdicts(Judge, validators, env, r);
    HeardVerdicts(Accept, parts, env, r);
    HeardConcat(Broadcast(Judge, validators, env),
                if AllOk(Judge, validators, env) then Broadcast(Accept, parts, env) else [], r);
  }

  lemma {:induction false} HeardAbort(parts: seq<Resource>, env: Environment, r: Resource)
    requires NoDup(parts)
    ensures Heard(AbortCalls(parts, env), r) ==
      if r in parts then [Call(Abort, r, env(Abort, r)), Call(Finish, r, env(Finish, r))] else []
  {
    HeardBroadcast(Abort, parts, env, r);
    HeardBroadcast(Finish, parts, env, r);
    HeardConcat(Broadcast(Abort, parts, env), Broadcast(Finish, parts, env), r);
  }

  lemma {:induction false} HeardCommit(parts: seq<Resource>, env: Environment, r: Resource)
    requires NoDup(parts)
    ensures Heard(CommitCalls(parts, env), r) ==
      if r in parts then [Call(Commit, r, env(Commit, r)), Call(Finish, r, env(Finish, r))] else []
  {
    HeardBroadcast(Commit, parts, env, r);
    HeardBroadcast(Finish, parts, env, r);
    HeardConcat(Broadcast(Commit, parts, env), Broadcast(Finish, parts, env), r);
  }

  lemma {:induction false} HeardPrepare(parts: seq<Resource>, env: Environment, r: Resource)
    requires NoDup(parts)
    ensures Heard(PrepareCalls(parts, env), r) ==
      if r in parts[..Asked(parts, env)] then [Call(Prepare, r, env(Prepare, r))] else []
  {
    HeardBroadcast(Prepare, parts[..Asked(parts, env)], env, r);
  }

  // ------------------------------------------------------------------ stories over a whole run

  // Prepared Ok, then told to commit, then told to finish.
  predicate CommittedStory(h: seq<Call>, r: Resource) {
    |h| == 3 && h[0] == Call(Prepare, r, Ok) && h[1].kind == Commit && h[2].kind == Finish
  }

  // Perhaps asked to prepare, then told to abort, then told to finish; never told to commit.
  predicate AbortedStory(h: seq<Call>) {
    || (|h| == 2 && h[0].kind == Abort && h[1].kind == Finish)
    || (|h| == 3 && h[0].kind == Prepare && h[1].kind == Abort && h[2].kind == Finish)
  }

  ghost predicate AllFresh(rec: Record) {
    forall r :: Heard(rec.calls, r) == []
  }

  ghost predicate AllPrepared(rec: Record) {
    forall r :: Heard(rec.calls, r) == if r in rec.parts then [Call(Prepare, r, Ok)] else []
  }

  ghost predicate AllCommitted(rec: Record) {
    forall r :: if r in rec.parts then CommittedStory(Heard(rec.calls, r), r) else Heard(rec.calls, r) == []
  }

  ghost predicate AllAborted(rec: Record) {
    forall r :: if r in rec.parts then AbortedStory(Heard(rec.calls, r)) else Heard(rec.calls, r) == []
  }

  // Every validator and every participant passed, and nobody refused.
  ghost predicate CleanRound(validators: seq<nat>, parts: seq<Resource>, c: seq<Call>) {
    && (forall j :: 0 <= j < |c| && IsVerdict(c[j].kind) ==> c[j].answer == Ok)
    && (forall v :: v in validators ==> Call(Judge, v, Ok) in c)
    && (forall r :: r in parts ==> Call(Accept, r, Ok) in c)
  }

  ghost predicate PassedBefore(validators: seq<nat>, rec: Record, i: nat)
    requires i <= |rec.calls|
  {
    exists k: nat :: k <= i && CleanRound(validators, rec.parts, rec.calls[k..i])
  }

  // Whoever is told to commit was preceded by a validation that everyone passed.
  ghost predicate Justified(validators: seq<nat>, rec: Record) {
    forall i :: 0 <= i < |rec.calls| && rec.calls[i].kind == Commit ==> PassedBefore(validators, rec, i)
  }

  ghost predicate RecordOk(s: Master, h: Handle)
    requires h < |s.log|
  {
    var rec := s.log[h];
    && NoDup(rec.parts)
    && Justified(s.validators, rec)
    && (if h in s.txs && s.txs[h].phase.Active? then AllFresh(rec)
        else if h in s.txs && s.txs[h].phase.Prepared? then AllPrepared(rec)
        else AllCommitted(rec) || AllAborted(rec))
  }

  ghost predicate Consistent(s: Master) {
    WellFormed(s) && forall h :: 0 <= h < |s.log| ==> RecordOk(s, h)
  }

  lemma {:induction false} NoCommitYet(rec: Record)
    requires AllFresh(rec) || AllPrepared(rec) || AllAborted(rec)
    ensures forall c :: c in rec.calls ==> c.kind != Commit
  {
    forall c | c in rec.calls
      ensures c.kind != Commit
    {
      if c.kind == Commit {
        HeardKeeps(rec.calls, c);
      }
    }
  }

  ghost function Extended(rec: Record, calls: seq<Call>): Record {
    Record(rec.parts, rec.calls + calls)
  }

  lemma {:induction false} ValidationKeeps(validators: seq<nat>, rec: Record, env: Environment)
    requires AllFresh(rec)
    ensures AllFresh(Extended(rec, ValidationCalls(validators, rec.parts, env)))
  {
    forall r ensures Heard(rec.calls + ValidationCalls(validators, rec.parts, env), r) == [] {
      HeardValidation(validators, rec.parts, env, r);
      HeardConcat(rec.calls, ValidationCalls(validators, rec.parts, env), r);
    }
  }

  // Nobody, everybody or a prefix has prepared: telling everyone to abort ends the story.
  lemma {:induction false} AbortEnds(rec: Record, pre: seq<Call>, env: Environment)
    requires NoDup(rec.parts)
    requires forall r ::
      (var h := Heard(rec.calls + pre, r); h == [] || (r in rec.parts && |h| == 1 && h[0].kind == Prepare))
    ensures AllAborted(Extended(rec, pre + AbortCalls(rec.parts, env)))
  {
    var a := AbortCalls(rec.parts, env);
    assert rec.calls + (pre + a) == (rec.calls + pre) + a;
    forall r
      ensures if r in rec.parts then AbortedStory(Heard(rec.calls + (pre + a), r))
              else Heard(rec.calls + (pre + a), r) == []
    {
      HeardAbort(rec.parts, env, r);
      HeardConcat(rec.calls + pre, a, r);
    }
  }

  lemma {:induction false} CommitEnds(rec: Record, pre: seq<Call>, env: Environment)
    requires NoDup(rec.parts)
    requires AllPrepared(Extended(rec, pre))
    ensures AllCommitted(Extended(rec, pre + CommitCalls(rec.parts, env)))
  {
    var c := CommitCalls(rec.parts, env);
    assert rec.calls + (pre + c) == (rec.calls + pre) + c;
    forall r
      ensures if r in rec.parts then CommittedStory(Heard(rec.calls + (pre + c), r), r)
              else Heard(rec.calls + (pre + c), r) == []
    {
      HeardCommit(rec.parts, env, r);
      HeardConcat(rec.calls + pre, c, r);
    }
  }

  lemma {:induction false} NothingToJustify(validators: seq<nat>, rec: Record)
    requires AllFresh(rec) || AllPrepared(rec) || AllAborted(rec)
    ensures Justified(validators, rec)
  {
    NoCommitYet(rec);
  }

  lemma {:induction false} AskedWhileOk(kind: Kind, whos: seq<nat>, env: Environment)
    requires AllOk(kind, whos, env)
    ensures forall c :: c in Broadcast(kind, whos, env) ==> c.answer == Ok
    ensures forall w :: w in whos ==> Call(kind, w, Ok) in Broadcast(kind, whos, env)
  {
    BroadcastAt(kind, whos, env);
    var b := Broadcast(kind, whos, env);
    forall w | w in whos ensures Call(kind, w, Ok) in b {
      var i :| 0 <= i < |whos| && whos[i] == w;
      assert b[i] == Call(kind, w, Ok);
    }
  }

  lemma {:induction false} PassingRoundIsClean(validators: seq<nat>, parts: seq<Resource>, env: Environment,
                                               more: seq<Call>)
    requires Passes(validators, parts, env)
    requires forall c :: c in more ==> !IsVerdict(c.kind)
    ensures CleanRound(validators, parts, ValidationCalls(validators, parts, env) + more)
  {
    AskedWhileOk(Judge, validators, env);
    AskedWhileOk(Accept, parts, env);
    var a, b := Broadcast(Judge, validators, env), Broadcast(Accept, parts, env);
    var all := ValidationCalls(validators, parts, env) + more;
    assert all == (a + b) + more;
    assert forall c :: c in all <==> c in a || c in b || c in more;
    assert forall j :: 0 <= j < |all| ==> all[j] in all;
  }

  // A commit decided in this very call is justified by the validation of this very call.
  lemma {:induction false} CommitIsJustified(validators: seq<nat>, rec: Record, pre: seq<Call>, env: Environment)
    requires Passes(validators, rec.parts, env)
    requires forall c :: c in rec.calls ==> c.kind != Commit
    requires forall c :: c in pre ==> !IsVerdict(c.kind) && c.kind != Commit
    ensures Justified(validators,
              Extended(rec, ValidationCalls(validators, rec.parts, env) + pre + CommitCalls(rec.parts, env)))
  {
    var v := ValidationCalls(validators, rec.parts, env);
    var c := CommitCalls(rec.parts, env);
    BroadcastAt(Judge, validators, env);
    BroadcastAt(Accept, rec.parts, env);
    var all := rec.calls + (v + pre + c);
    var k := |rec.calls|;
    assert forall j :: 0 <= j < k ==> all[j] == rec.calls[j] && all[j] in rec.calls;
    assert forall j :: 0 <= j < |v| ==> v[j] == all[k + j];
    forall i | 0 <= i < |all| && all[i].kind == Commit
      ensures PassedBefore(validators, Record(rec.parts, all), i)
    {
      assert i >= k + |v|;
      TailIsQuiet(rec.parts, pre, env, i - k - |v|);
      var more := (pre + c)[..i - k - |v|];
      assert all[k..i] == v + more;
      PassingRoundIsClean(validators, rec.parts, env, more);
    }
  }

  // No verdicts are asked for after validation.
  lemma {:induction false} TailIsQuiet(parts: seq<Resource>, pre: seq<Call>, env: Environment, n: nat)
    requires forall c :: c in pre ==> !IsVerdict(c.kind)
    requires n <= |pre + CommitCalls(parts, env)|
    ensures forall x :: x in (pre + CommitCalls(parts, env))[..n] ==> !IsVerdict(x.kind)
  {
    var c := CommitCalls(parts, env);
    BroadcastAt(Commit, parts, env);
    BroadcastAt(Finish, parts, env);
    assert forall x :: x in (pre + c)[..n] ==> x in pre || x in c;
  }

  // ------------------------------------------------------------------ each call keeps it

  // The participants' stories after a validation that sends nobody a protocol call.
  lemma {:induction false} ValidationIsSilent(validators: seq<nat>, rec: Record, env: Environment, r: Resource)
    ensures Heard(rec.calls + ValidationCalls(validators, rec.parts, env), r) == Heard(rec.calls, r)
  {
    HeardValidation(validators, rec.parts, env, r);
    HeardConcat(rec.calls, ValidationCalls(validators, rec.parts, env), r);
  }

  lemma {:induction false} RefusedCommitOk(validators: seq<nat>, rec: Record, env: Environment)
    requires NoDup(rec.parts)
    requires AllPrepared(rec) || AllFresh(rec)
    ensures AllAborted(Extended(rec, ValidationCalls(validators, rec.parts, env) + AbortCalls(rec.parts, env)))
  {
    forall r { ValidationIsSilent(validators, rec, env, r); }
    AbortEnds(rec, ValidationCalls(validators, rec.parts, env), env);
  }

  lemma {:induction false} PreparedCommitOk(validators: seq<nat>, rec: Record, env: Environment)
    requires NoDup(rec.parts) && AllPrepared(rec)
    requires Passes(validators, rec.parts, env)
    ensures var after := Extended(rec, ValidationCalls(validators, rec.parts, env) + CommitCalls(rec.parts, env));
      Justified(validators, after) && AllCommitted(after)
  {
    var v := ValidationCalls(validators, rec.parts, env);
    forall r { ValidationIsSilent(validators, rec, env, r); }
    CommitEnds(rec, v, env);
    NoCommitYet(rec);
    assert v + [] == v;
    CommitIsJustified(validators, rec, [], env);
  }

  // After validation and the prepare phase, exactly the participants that were asked have heard one call.
  lemma {:induction false} PreparePhaseHeard(validators: seq<nat>, rec: Record, env: Environment, r: Resource)
    requires NoDup(rec.parts) && AllFresh(rec)
    ensures Heard(rec.calls + (ValidationCalls(validators, rec.parts, env) + PrepareCalls(rec.parts, env)), r) ==
      if r in rec.parts[..Asked(rec.parts, env)] then [Call(Prepare, r, env(Prepare, r))] else []
  {
    HeardPrepare(rec.parts, env, r);
    HeardValidation(validators, rec.parts, env, r);
    HeardTwo(rec.calls, ValidationCalls(validators, rec.parts, env), PrepareCalls(rec.parts, env), r);
  }

  lemma {:induction false} FreshCommitOk(validators: seq<nat>, rec: Record, env: Environment)
    requires NoDup(rec.parts) && AllFresh(rec)
    requires Passes(validators, rec.parts, env) && AllOk(Prepare, rec.parts, env)
    ensures var after := Extended(rec, ValidationCalls(validators, rec.parts, env) + PrepareCalls(rec.parts, env)
                                       + CommitCalls(rec.parts, env));
      Justified(validators, after) && AllCommitted(after)
  {
    var v, p := ValidationCalls(validators, rec.parts, env), PrepareCalls(rec.parts, env);
    forall r { PreparePhaseHeard(validators, rec, env, r); }
    assert rec.parts[..Asked(rec.parts, env)] == rec.parts;
    CommitEnds(rec, v + p, env);
    NoCommitYet(rec);
    BroadcastAt(Prepare, rec.parts, env);
    CommitIsJustified(validators, rec, p, env);
  }

  lemma {:induction false} UnpreparedCommitOk(validators: seq<nat>, rec: Record, env: Environment)
    requires NoDup(rec.parts) && AllFresh(rec)
    ensures AllAborted(Extended(rec, ValidationCalls(validators, rec.parts, env) + PrepareCalls(rec.parts, env)
                                     + AbortCalls(rec.parts, env)))
  {
    forall r { PreparePhaseHeard(validators, rec, env, r); }
    AbortEnds(rec, ValidationCalls(validators, rec.parts, env) + PrepareCalls(rec.parts, env), env);
  }

  lemma {:induction false} CommitTxOk(validators: seq<nat>, rec: Record, prepared: bool, env: Environment)
    requires NoDup(rec.parts)
    requires if prepared then AllPrepared(rec) else AllFresh(rec)
    ensures var after := Extended(rec, CommitOutcome(validators, rec.parts, prepared, env).calls);
      Justified(validators, after) && (AllCommitted(after) || AllAborted(after))
  {
    var after := Extended(rec, CommitOutcome(validators, rec.parts, prepared, env).calls);
    if !Passes(validators, rec.parts, env) {
      RefusedCommitOk(validators, rec, env);
      NothingToJustify(validators, after);
    } else if prepared {
      PreparedCommitOk(validators, rec, env);
    } else if AllOk(Prepare, rec.parts, env) {
      FreshCommitOk(validators, rec, env);
    } else {
      UnpreparedCommitOk(validators, rec, env);
      NothingToJustify(validators, after);
    }
  }

  lemma {:induction false} ExplicitPrepareOk(validators: seq<nat>, rec: Record, env: Environment)
    requires NoDup(rec.parts) && AllFresh(rec)
    ensures var p := PrepareCalls(rec.parts, env);
      if AllOk(Prepare, rec.parts, env) then AllPrepared(Extended(rec, p))
      else AllAborted(Extended(rec, p + AbortCalls(rec.parts, env)))
  {
    var p := PrepareCalls(rec.parts, env);
    forall r ensures Heard(rec.calls + p, r) ==
               if r in rec.parts[..Asked(rec.parts, env)] then [Call(Prepare, r, env(Prepare, r))] else []
    {
      HeardPrepare(rec.parts, env, r);
      HeardConcat(rec.calls, p, r);
    }
    if AllOk(Prepare, rec.parts, env) {
      assert rec.parts[..Asked(rec.parts, env)] == rec.parts;
    } else {
      AbortEnds(rec, p, env);
    }
  }

  lemma {:induction false} AbortOk(rec: Record, env: Environment)
    requires NoDup(rec.parts) && (AllFresh(rec) || AllPrepared(rec))
    ensures AllAborted(Extended(rec, AbortCalls(rec.parts, env)))
  {
    assert rec.calls + [] == rec.calls;
    assert [] + AbortCalls(rec.parts, env) == AbortCalls(rec.parts, env);
    AbortEnds(rec, [], env);
  }

  lemma {:induction false} TickKeeps(s: Master, env: Environment)
    requires Consistent(s)
    ensures Consistent(Ticked(s, env))
  {
    var t := Ticked(s, env);
    forall h | 0 <= h < |t.log| ensures RecordOk(t, h) {
      assert RecordOk(s, h);
      if h in s.txs && Expires(s.txs[h], s.now + 1) {
        AbortOk(s.log[h], env);
        NothingToJustify(s.validators, t.log[h]);
      }
    }
  }

  lemma {:induction false} ServedKeeps(s: Master, op: Op)
    requires Consistent(s) && !op.New? && !op.Tick?
    requires op.tx in s.txs && !s.txs[op.tx].phase.TimedOut?
    ensures Consistent(Served(s, op).master)
  {
    var h := op.tx;
    var rec := s.log[h];
    assert RecordOk(s, h);
    match op {
      case CommitTx(_, env) =>
        CommitTxOk(s.validators, rec, s.txs[h].phase.Prepared?, env);
      case AbortTx(_, env) =>
        AbortOk(rec, env);
        NothingToJustify(s.validators, Extended(rec, AbortCalls(rec.parts, env)));
      case ValidateTx(_, env) =>
        if s.txs[h].phase.Active? {
          ValidationKeeps(s.validators, rec, env);
          NothingToJustify(s.validators, Extended(rec, ValidationCalls(s.validators, rec.parts, env)));
        }
      case ExplicitPrepare(_, env) =>
        if s.txs[h].phase.Active? {
          ExplicitPrepareOk(s.validators, rec, env);
          var p := PrepareCalls(rec.parts, env);
          NothingToJustify(s.validators,
            if AllOk(Prepare, rec.parts, env) then Extended(rec, p)
            else Extended(rec, p + AbortCalls(rec.parts, env)));
        }
      case Register(_, r) =>
        if s.txs[h].phase.Active? && r !in rec.parts {
          NothingToJustify(s.validators, Record(rec.parts + [r], rec.calls));
        }
      case _ =>
    }
    var t := Served(s, op).master;
    forall k | 0 <= k < |t.log| && k != h ensures RecordOk(t, k) {
      assert RecordOk(s, k);
    }
  }

  lemma {:induction false} NewKeeps(s: Master, policy: LockPolicy, timeout: nat)
    requires Consistent(s)
    ensures Consistent(Started(s, policy, timeout).master)
  {
    var t := Started(s, policy, timeout).master;
    forall h | 0 <= h < |t.log| ensures RecordOk(t, h) {
      if h < |s.log| {
        assert RecordOk(s, h);
      }
    }
  }

  lemma {:induction false} ForgettingKeeps(s: Master, h: Handle)
    requires Consistent(s) && h in s.txs && s.txs[h].phase.TimedOut?
    ensures Consistent(s.(txs := s.txs - {h}))
  {
    var t := s.(txs := s.txs - {h});
    forall k | 0 <= k < |t.log| ensures RecordOk(t, k) {
      assert RecordOk(s, k);
    }
  }

  lemma {:induction false} StepKeeps(s: Master, op: Op)
    requires Consistent(s)
    ensures Consistent(Step(s, op).master)
  {
    match op {
      case New(policy, timeout) => NewKeeps(s, policy, timeout);
      case Tick(env) => TickKeeps(s, env);
      case _ =>
        if op.tx in s.txs {
          if s.txs[op.tx].phase.TimedOut? {
            ForgettingKeeps(s, op.tx);
          } else {
            ServedKeeps(s, op);
          }
        }
    }
  }

  // Every reachable state is consistent, whatever is called and whatever anyone answers.
  lemma {:induction false} EveryRunConsistent(s: Master, ops: seq<Op>)
    requires Consistent(s)
    ensures Consistent(Run(s, ops))
    decreases |ops|
  {
    if ops != [] {
      StepKeeps(s, ops[0]);
      EveryRunConsistent(Step(s, ops[0]).master, ops[1..]);
    }
  }

  // ------------------------------------------------------------------ the main results

  ghost predicate Hears(rec: Record, r: Resource, kind: Kind) {
    exists c :: c in Heard(rec.calls, r) && c.kind == kind
  }

  // In every reachable state: if anybody was told to commit then everybody was, after preparing Ok and
  // after a validation that everyone passed, and nobody was told to abort.
  lemma {:induction false} AtomicDecision(validators: seq<nat>, ops: seq<Op>, h: Handle, p: Resource, q: Resource)
    requires h < |Run(Init(validators), ops).log|
    requires var rec := Run(Init(validators), ops).log[h]; q in rec.parts && Hears(rec, p, Commit)
    ensures var rec := Run(Init(validators), ops).log[h];
      && p in rec.parts
      && CommittedStory(Heard(rec.calls, q), q)
      && !Hears(rec, q, Abort)
      && forall i :: 0 <= i < |rec.calls| && rec.calls[i].kind == Commit ==> PassedBefore(validators, rec, i)
  {
    EveryRunConsistent(Init(validators), ops);
    RunKeepsValidators(Init(validators), ops);
    assert RecordOk(Run(Init(validators), ops), h);
    DecisionIsShared(Run(Init(validators), ops), h, p, q);
  }

  // Whoever hears commit shares that decision with everyone in the transaction.
  lemma {:induction false} DecisionIsShared(s: Master, h: Handle, p: Resource, q: Resource)
    requires h < |s.log| && RecordOk(s, h) && q in s.log[h].parts && Hears(s.log[h], p, Commit)
    ensures p in s.log[h].parts && CommittedStory(Heard(s.log[h].calls, q), q) && !Hears(s.log[h], q, Abort)
    ensures Justified(s.validators, s.log[h])
  {
    assert AllCommitted(s.log[h]);
  }

  lemma {:induction false} RunKeepsValidators(s: Master, ops: seq<Op>)
    requires WellFormed(s)
    ensures Run(s, ops).validators == s.validators
    decreases |ops|
  {
    if ops != [] {
      RunKeepsValidators(Step(s, ops[0]).master, ops[1..]);
    }
  }

  // In every reachable state a transaction whose handle is gone, or that has timed out, was either
  // committed everywhere or aborted everywhere; while it is open nobody has been told either.
  lemma {:induction false} EndedEverywhere(validators: seq<nat>, ops: seq<Op>, h: Handle)
    requires h < |Run(Init(validators), ops).log|
    ensures var s := Run(Init(validators), ops); var rec := s.log[h];
      if h in s.txs && !s.txs[h].phase.TimedOut?
      then forall r, c :: c in Heard(rec.calls, r) ==> c == Call(Prepare, r, Ok)
      else AllCommitted(rec) || AllAborted(rec)
  {
    EveryRunConsistent(Init(validators), ops);
    assert RecordOk(Run(Init(validators), ops), h);
  }

  lemma {:induction false} SilentFirst(v: seq<Call>, c: seq<Call>, r: Resource)
    requires Heard(v, r) == []
    ensures Heard(v + c, r) == Heard(c, r)
  {
    HeardConcat(v, c, r);
  }

  lemma {:induction false} StepGrowsParts(s: Master, op: Op, h: Handle)
    requires WellFormed(s) && h < |s.log|
    ensures h < |Step(s, op).master.log| && s.log[h].parts <= Step(s, op).master.log[h].parts
  {
  }

  lemma {:induction false} PartsOnlyGrow(s: Master, ops: seq<Op>, h: Handle)
    requires WellFormed(s) && h < |s.log|
    ensures h < |Run(s, ops).log| && s.log[h].parts <= Run(s, ops).log[h].parts
    decreases |ops|
  {
    if ops != [] {
      StepGrowsParts(s, ops[0], h);
      PartsOnlyGrow(Step(s, ops[0]).master, ops[1..], h);
    }
  }

  // Whoever has registered hears how the transaction ends, in every run that ends it.
  lemma {:induction false} RegisteredHearsTheEnd(s: Master, h: Handle, r: Resource, ops: seq<Op>)
    requires Consistent(s) && Step(s, Register(h, r)).code == Ok
    requires h !in Run(Step(s, Register(h, r)).master, ops).txs
    ensures var t := Run(Step(s, Register(h, r)).master, ops);
      && h < |t.log| && r in t.log[h].parts
      && (CommittedStory(Heard(t.log[h].calls, r), r) || AbortedStory(Heard(t.log[h].calls, r)))
  {
    var u := Step(s, Register(h, r)).master;
    StepKeeps(s, Register(h, r));
    assert r == u.log[h].parts[|u.log[h].parts| - 1];
    PartsOnlyGrow(u, ops, h);
    EveryRunConsistent(u, ops);
    assert RecordOk(Run(u, ops), h);
  }

  // What the code of a commit says about the validation, the votes, and all that participant number i has heard of the
  // transaction, prepared explicitly or not.
  ghost predicate CodeTells(code: ReturnCode, story: seq<Call>, validators: seq<nat>, parts: seq<Resource>, early: bool,
                            env: Environment, i: nat)
    requires i < |parts|
  {
    var r := parts[i];
    var passed := Passes(validators, parts, env);
    var agreed := early || AllOk(Prepare, parts, env);
    var asked := early || forall j :: 0 <= j < i ==> env(Prepare, parts[j]) == Ok;
    var preparing := [Call(Prepare, r, if early then Ok else env(Prepare, r))];
    var aborting := [Call(Abort, r, env(Abort, r)), Call(Finish, r, env(Finish, r))];
    var committing := [Call(Commit, r, env(Commit, r)), Call(Finish, r, env(Finish, r))];
    match code
    case ValidationFailed => !passed && story == (if early then preparing else []) + aborting
    case PrepareFailed => passed && !agreed && story == (if asked then preparing else []) + aborting
    case CommitFailed => passed && agreed && !AllOk(Commit, parts, env) && story == preparing + committing
    case Ok => passed && agreed && AllOk(Commit, parts, env) && story == preparing + committing
    case _ => false
  }

  // A commit that still has to prepare.
  lemma {:induction false} CommitCallsTellStory(validators: seq<nat>, parts: seq<Resource>, env: Environment, i: nat)
    requires NoDup(parts) && i < |parts|
    ensures var o := CommitOutcome(validators, parts, false, env);
      CodeTells(o.code, Heard(o.calls, parts[i]), validators, parts, false, env, i)
  {
    var r := parts[i];
    var v, p := ValidationCalls(validators, parts, env), PrepareCalls(parts, env);
    HeardValidation(validators, parts, env, r);
    HeardPrepare(parts, env, r);
    HeardAbort(parts, env, r);
    HeardCommit(parts, env, r);
    SilentFirst(v, AbortCalls(parts, env), r);
    SilentFirst(v, p, r);
    HeardConcat(v + p, AbortCalls(parts, env), r);
    HeardConcat(v + p, CommitCalls(parts, env), r);
    AskedIsPrefix(parts, env, i);
  }

  // A commit that follows an explicit prepare.
  lemma {:induction false} PreparedCommitCallsTellStory(validators: seq<nat>, parts: seq<Resource>, env: Environment,
                                                        i: nat)
    requires NoDup(parts) && i < |parts|
    ensures var o := CommitOutcome(validators, parts, true, env); var r := parts[i];
      CodeTells(o.code, [Call(Prepare, r, Ok)] + Heard(o.calls, r), validators, parts, true, env, i)
  {
    var r := parts[i];
    var v := ValidationCalls(validators, parts, env);
    HeardValidation(validators, parts, env, r);
    HeardAbort(parts, env, r);
    HeardCommit(parts, env, r);
    SilentFirst(v, AbortCalls(parts, env), r);
    SilentFirst(v, CommitCalls(parts, env), r);
  }

  lemma {:induction false} CommitStepIs(s: Master, h: Handle, env: Environment)
    requires WellFormed(s) && h in s.txs && !s.txs[h].phase.TimedOut? && s.txs[h].parts != []
    ensures var t := Step(s, CommitTx(h, env));
      var o := CommitOutcome(s.validators, s.txs[h].parts, s.txs[h].phase.Prepared?, env);
      && t.code == o.code && t.master.txs == s.txs - {h} && |t.master.log| == |s.log|
      && t.master.log[h] == Record(s.txs[h].parts, s.log[h].calls + o.calls)
  {
  }

  // In every reachable state: what the code of a commit says about everything participant number i has heard of the
  // transaction, prepared explicitly or not.
  lemma {:induction false} CommitCodeTellsStory(validators: seq<nat>, ops: seq<Op>, h: Handle, env: Environment, i: nat)
    requires var s := Run(Init(validators), ops);
      h in s.txs && !s.txs[h].phase.TimedOut? && i < |s.txs[h].parts|
    ensures var s := Run(Init(validators), ops); var parts := s.txs[h].parts;
      var t := Step(s, CommitTx(h, env));
      && h !in t.master.txs && h < |t.master.log|
      && CodeTells(t.code, Heard(t.master.log[h].calls, parts[i]), validators, parts, s.txs[h].phase.Prepared?, env, i)
  {
    var s := Run(Init(validators), ops);
    EveryRunConsistent(Init(validators), ops);
    RunKeepsValidators(Init(validators), ops);
    assert RecordOk(s, h);
    var parts, early := s.txs[h].parts, s.txs[h].phase.Prepared?;
    CommitStepIs(s, h, env);
    var calls := CommitOutcome(validators, parts, early, env).calls;
    HeardConcat(s.log[h].calls, calls, parts[i]);
    if early {
      PreparedCommitCallsTellStory(validators, parts, env, i);
    } else {
      CommitCallsTellStory(validators, parts, env, i);
      assert [] + Heard(calls, parts[i]) == Heard(calls, parts[i]);
    }
  }

  // One validation: every validator is asked once, in order; then every participant, if and only if all of the
  // validators passed.
  lemma {:induction false} ValidationAsksEveryone(validators: seq<nat>, parts: seq<Resource>, env: Environment)
    ensures var c := ValidationCalls(validators, parts, env);
      && |c| == |validators| + (if forall v <- validators :: env(Judge, v) == Ok then |parts| else 0)
      && (forall i :: 0 <= i < |validators| ==> c[i] == Call(Judge, validators[i], env(Judge, validators[i])))
      && (forall i :: |validators| <= i < |c| ==>
            c[i] == Call(Accept, parts[i - |validators|], env(Accept, parts[i - |validators|])))
  {
    BroadcastAt(Judge, validators, env);
    BroadcastAt(Accept, parts, env);
  }

  // A participant is asked to prepare exactly when everyone before it agreed.
  lemma {:induction false} AskedIsPrefix(parts: seq<Resource>, env: Environment, i: nat)
    requires NoDup(parts) && i < |parts|
    ensures parts[i] in parts[..Asked(parts, env)] <==> forall j :: 0 <= j < i ==> env(Prepare, parts[j]) == Ok
  {
    var n := Asked(parts, env);
    if i < n {
      assert parts[..n][i] == parts[i];
    } else {
      assert AllOk(Prepare, parts, env) ==> n == |parts|;
      assert env(Prepare, parts[n - 1]) != Ok;
    }
  }

  ghost predicate SameStories(a: Record, b: Record) {
    forall r :: Heard(a.calls, r) == Heard(b.calls, r)
  }

  // Calls a participant does not hear may be made before or after the calls it does hear.
  lemma {:induction false} SilentLate(a: seq<Call>, p: seq<Call>, v: seq<Call>, c: seq<Call>, r: Resource)
    requires Heard(v, r) == []
    ensures Heard((a + p) + (v + c), r) == (Heard(a, r) + Heard(p, r)) + Heard(c, r)
  {
    HeardConcat(v, c, r);
    HeardConcat(a + p, v + c, r);
    HeardConcat(a, p, r);
  }

  lemma {:induction false} SilentEarly(a: seq<Call>, p: seq<Call>, v: seq<Call>, c: seq<Call>, r: Resource)
    requires Heard(v, r) == []
    ensures Heard(a + ((v + p) + c), r) == Heard(a, r) + (Heard(p, r) + Heard(c, r))
  {
    HeardConcat(v, p, r);
    HeardConcat(v + p, c, r);
    HeardConcat(a, (v + p) + c, r);
  }

  lemma {:induction false} SilentMoves(a: seq<Call>, p: seq<Call>, v: seq<Call>, c: seq<Call>, r: Resource)
    requires Heard(v, r) == []
    ensures Heard((a + p) + (v + c), r) == Heard(a + ((v + p) + c), r)
    ensures Heard(a + (p + c), r) == Heard(a + ((v + p) + c), r)
  {
    SilentLate(a, p, v, c, r);
    SilentEarly(a, p, v, c, r);
    HeardConcat(p, c, r);
    HeardConcat(a, p + c, r);
    var x, y, z := Heard(a, r), Heard(p, r), Heard(c, r);
    assert (x + y) + z == x + (y + z);
  }

  ghost function AfterPlain(s: Master, h: Handle, env: Environment): Reply
    requires WellFormed(s)
  {
    Step(s, CommitTx(h, env))
  }

  ghost predicate Open(s: Master, h: Handle) {
    Consistent(s) && h in s.txs && s.txs[h].phase.Active? && s.txs[h].parts != []
  }

  // Asking for validation asks, and does nothing else: no participant hears anything it would have to act on.
  lemma {:induction false} ValidateOnlyAsks(s: Master, h: Handle, env: Environment)
    requires Open(s, h)
    ensures var t := Step(s, ValidateTx(h, env));
      && t.code == Ok && t.master.txs == s.txs
      && t.master.log[h].calls == s.log[h].calls + ValidationCalls(s.validators, s.txs[h].parts, env)
      && SameStories(t.master.log[h], s.log[h])
  {
    forall r { ValidationIsSilent(s.validators, s.log[h], env, r); }
  }

  // An explicit prepare that fails leaves the transaction aborted everywhere and its handle gone, as the plain
  // commit would have.
  lemma {:induction false} FailedExplicitPrepareAborts(s: Master, h: Handle, env: Environment)
    requires Open(s, h) && !AllOk(Prepare, s.txs[h].parts, env)
    ensures var plain, explicit := AfterPlain(s, h, env), Step(s, ExplicitPrepare(h, env));
      && explicit.code == PrepareFailed && h !in explicit.master.txs && AllAborted(explicit.master.log[h])
      && explicit.master.txs == plain.master.txs
      && (if Passes(s.validators, s.txs[h].parts, env)
          then plain.code == PrepareFailed && SameStories(explicit.master.log[h], plain.master.log[h])
          else plain.code == ValidationFailed && AllAborted(plain.master.log[h]))
  {
    var rec := s.log[h];
    var parts := rec.parts;
    assert RecordOk(s, h);
    var v, p, a := ValidationCalls(s.validators, parts, env), PrepareCalls(parts, env), AbortCalls(parts, env);
    ExplicitPrepareOk(s.validators, rec, env);
    if Passes(s.validators, parts, env) {
      forall r ensures Heard(rec.calls + (p + a), r) == Heard(rec.calls + (v + p + a), r) {
        HeardValidation(s.validators, parts, env, r);
        SilentMoves(rec.calls, p, v, a, r);
      }
    } else {
      RefusedCommitOk(s.validators, rec, env);
    }
  }
}
