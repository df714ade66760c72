/**
 What decides a transaction, said of the answers everyone gives: which code each request is answered with, who is
 asked what and in which order, who takes part and on which terms.
*/
module CommitDecisions {
  import opened Common
  import opened TransactionService
  import opened TransactionProofs
  import opened TransactionLifetime

  // ------------------------------------------------------------------ codes

  // In every reachable state, with participants: the code of a commit.  Validation fails if and only if some validator
  // does not pass or, all of them passing, some participant does not; then prepare fails if and only if it is still to
  // be asked for and some participant refuses; then commit fails if and only if some participant does not commit.
  lemma {:induction false} CommitCodeIs(validators: seq<nat>, ops: seq<Op>, h: Handle, env: Environment)
    requires var s := Run(Init(validators), ops); h in s.txs && !s.txs[h].phase.TimedOut? && s.txs[h].parts != []
    ensures var s := Run(Init(validators), ops); var parts := s.txs[h].parts;
      var code := Step(s, CommitTx(h, env)).code;
      code ==
        if (exists v :: v in validators && env(Judge, v) != Ok) || (exists r :: r in parts && env(Accept, r) != Ok) then
          ValidationFailed
        else if s.txs[h].phase.Active? && exists r :: r in parts && env(Prepare, r) != Ok then PrepareFailed
        else if exists r :: r in parts && env(Commit, r) != Ok then CommitFailed
        else Ok
  {
    RunKeepsValidators(Init(validators), ops);
    EveryRunConsistent(Init(validators), ops);
    CommitStepIs(Run(Init(validators), ops), h, env);
  }

  // When everyone says Ok to everything, a commit answers Ok and every participant has heard prepare, commit and
  // finish.
  lemma {:induction false} AllOkCommits(validators: seq<nat>, ops: seq<Op>, h: Handle, env: Environment, r: Resource)
    requires var s := Run(Init(validators), ops); h in s.txs && !s.txs[h].phase.TimedOut? && r in s.txs[h].parts
    requires forall v <- validators :: env(Judge, v) == Ok
    requires forall x <- Run(Init(validators), ops).txs[h].parts ::
      env(Accept, x) == Ok && env(Prepare, x) == Ok && env(Commit, x) == Ok
    ensures var t := Step(Run(Init(validators), ops), CommitTx(h, env));
      && t.code == Ok && h < |t.master.log|
      && Heard(t.master.log[h].calls, r) == [Call(Prepare, r, Ok), Call(Commit, r, Ok), Call(Finish, r, env(Finish, r))]
  {
    var parts := Run(Init(validators), ops).txs[h].parts;
    var i :| 0 <= i < |parts| && parts[i] == r;
    CommitCodeIs(validators, ops, h, env);
    CommitCodeTellsStory(validators, ops, h, env, i);
    assert [Call(Prepare, r, Ok)] + [Call(Commit, r, Ok), Call(Finish, r, env(Finish, r))]
        == [Call(Prepare, r, Ok), Call(Commit, r, Ok), Call(Finish, r, env(Finish, r))];
  }

  // An explicit prepare succeeds if and only if everyone prepares, and then the transaction waits.
  lemma {:induction false} ExplicitPrepareCodeIs(s: Master, h: Handle, env: Environment)
    requires Open(s, h)
    ensures var r := Step(s, ExplicitPrepare(h, env));
      && r.code == (if forall p <- s.txs[h].parts :: env(Prepare, p) == Ok then Ok else PrepareFailed)
      && (r.code == Ok ==> h in r.master.txs && r.master.txs[h].phase.Prepared?)
      && (r.code != Ok ==> h !in r.master.txs)
  {
  }

  // Commit and explicit prepare without participants are refused and change nothing.
  lemma {:induction false} NobodyToAsk(s: Master, h: Handle, env: Environment)
    requires WellFormed(s) && h in s.txs && s.txs[h].phase.Active? && s.txs[h].parts == []
    ensures Step(s, CommitTx(h, env)) == Reply(s, NotExist) && Step(s, ExplicitPrepare(h, env)) == Reply(s, NotExist)
  {
  }

  lemma {:induction false} AbortStepIs(s: Master, h: Handle, env: Environment)
    requires WellFormed(s) && h in s.txs && !s.txs[h].phase.TimedOut?
    ensures var t := Step(s, AbortTx(h, env));
      && t.code == Ok && t.master.txs == s.txs - {h} && |t.master.log| == |s.log|
      && t.master.log[h].calls == s.log[h].calls + AbortCalls(s.txs[h].parts, env)
  {
  }

  // An abort of a transaction that is open or prepared always succeeds, ends it, and aborts everyone.
  lemma {:induction false} AbortEndsIt(s: Master, h: Handle, env: Environment, r: Resource)
    requires Consistent(s) && h in s.txs && !s.txs[h].phase.TimedOut? && r in s.txs[h].parts
    ensures var t := Step(s, AbortTx(h, env));
      && t.code == Ok && t.master.txs == s.txs - {h} && |t.master.log| == |s.log|
      && Heard(t.master.log[h].calls, r) ==
           Heard(s.log[h].calls, r) + [Call(Abort, r, env(Abort, r)), Call(Finish, r, env(Finish, r))]
  {
    assert RecordOk(s, h);
    AbortStepIs(s, h, env);
    HeardAbort(s.txs[h].parts, env, r);
    HeardConcat(s.log[h].calls, AbortCalls(s.txs[h].parts, env), r);
  }

  // A request to validate an open transaction, with or without participants, puts one validation on its record.
  lemma {:induction false} ValidateAsks(s: Master, h: Handle, env: Environment)
    requires WellFormed(s) && h in s.txs && s.txs[h].phase.Active?
    ensures var r := Step(s, ValidateTx(h, env));
      && r.code == Ok && r.master.txs == s.txs && |r.master.log| == |s.log|
      && r.master.log[h].calls == s.log[h].calls + ValidationCalls(s.validators, s.txs[h].parts, env)
  {
  }

  // The requests on an open transaction that ask nobody.
  lemma {:induction false} PlainCodes(s: Master, h: Handle, r: Resource, context: int, env: Environment)
    requires WellFormed(s) && h in s.txs && s.txs[h].phase.Active?
    ensures Step(s, Register(h, r)).code == if r in s.txs[h].parts then AlreadyExist else Ok
    ensures Step(s, SetContext(h, r, context)).code == if r in s.txs[h].parts then Ok else NotExist
    ensures Step(s, Query(h)) == Reply(s, Ok)
    ensures Step(s, ValidateTx(h, env)).code == Ok
  {
  }

  // In every run an MO call may begin on every open transaction, and return if and only if one has begun and not
  // returned.
  lemma {:induction false} MoCallsAreServed(validators: seq<nat>, ops: seq<Op>, h: Handle)
    requires var s := Run(Init(validators), ops); h in s.txs && s.txs[h].phase.Active?
    ensures var s := Run(Init(validators), ops);
      && Step(s, BeginMoCall(h)).code == Ok
      && (Step(s, EndMoCall(h)).code == Ok <==> OpenCalls(Init(validators), ops, h) > 0)
  {
    EveryRunTimely(Init(validators), ops);
    PendingIsOpenCalls(Init(validators), ops, h);
    MoCallCodes(Run(Init(validators), ops), h);
  }

  lemma {:induction false} MoCallCodes(s: Master, h: Handle)
    requires Timely(s) && h in s.txs && s.txs[h].phase.Active?
    ensures Step(s, BeginMoCall(h)).code == Ok
    ensures Step(s, EndMoCall(h)).code == if Pending(s, h) > 0 then Ok else Failure
  {
    assert TimelyTx(s.txs[h], s.now);
  }

  // ------------------------------------------------------------------ who is asked, and in which order

  // Those who get calls of one kind, in order.
  function Whos(calls: seq<Call>, kind: Kind): seq<nat> {
    if calls == [] then []
    else (if calls[0].kind == kind then [calls[0].who] else []) + Whos(calls[1..], kind)
  }

  function Rank(kind: Kind): nat {
    match kind
    case Judge => 0
    case Accept => 1
    case Prepare => 2
    case Commit => 3
    case Abort => 3
    case Finish => 4
  }

  // No call of a later phase comes before one of an earlier phase.
  ghost predicate InPhases(calls: seq<Call>) {
    calls == [] || (From(calls[1..], Rank(calls[0].kind)) && InPhases(calls[1..]))
  }

  ghost predicate From(calls: seq<Call>, n: nat) {
    forall c :: c in calls ==> n <= Rank(c.kind)
  }

  ghost predicate UpTo(calls: seq<Call>, n: nat) {
    forall c :: c in calls ==> Rank(c.kind) <= n
  }

  lemma {:induction false} WhosConcat(a: seq<Call>, b: seq<Call>, kind: Kind)
    ensures Whos(a + b, kind) == Whos(a, kind) + Whos(b, kind)
  {
    if a == [] {
      assert a + b == b;
    } else {
      assert (a + b)[0] == a[0] && (a + b)[1..] == a[1..] + b;
      WhosConcat(a[1..], b, kind);
      ConcatAssoc(if a[0].kind == kind then [a[0].who] else [], Whos(a[1..], kind), Whos(b, kind));
    }
  }

  lemma {:induction false} WhosBroadcast(k: Kind, whos: seq<nat>, env: Environment, kind: Kind)
    ensures Whos(Broadcast(k, whos, env), kind) == if k == kind then whos else []
  {
    if whos != [] {
      WhosBroadcast(k, whos[1..], env, kind);
      assert Broadcast(k, whos, env)[1..] == Broadcast(k, whos[1..], env);
      assert whos == [whos[0]] + whos[1..];
    }
  }

  lemma {:induction false} PhasesJoin(a: seq<Call>, b: seq<Call>, n: nat)
    requires InPhases(a) && InPhases(b) && UpTo(a, n) && From(b, n)
    ensures InPhases(a + b)
  {
    if a == [] {
      assert a + b == b;
    } else {
      assert (a + b)[0] == a[0] && (a + b)[1..] == a[1..] + b;
      assert a[0] in a;
      PhasesJoin(a[1..], b, n);
    }
  }

  lemma {:induction false} BroadcastIsOnePhase(k: Kind, whos: seq<nat>, env: Environment)
    ensures var calls := Broadcast(k, whos, env); InPhases(calls) && From(calls, Rank(k)) && UpTo(calls, Rank(k))
  {
    if whos != [] {
      BroadcastIsOnePhase(k, whos[1..], env);
      assert Broadcast(k, whos, env)[1..] == Broadcast(k, whos[1..], env);
    }
  }

  // Two rounds, everyone in the first before anyone in the second.
  lemma {:induction false} TwoRounds(k: Kind, l: Kind, a: seq<nat>, b: seq<nat>, env: Environment, kind: Kind)
    requires Rank(k) <= Rank(l) && k != l
    ensures var calls := Broadcast(k, a, env) + Broadcast(l, b, env);
      && InPhases(calls) && From(calls, Rank(k)) && UpTo(calls, Rank(l))
      && Whos(calls, kind) == if kind == k then a else if kind == l then b else []
  {
    BroadcastIsOnePhase(k, a, env);
    BroadcastIsOnePhase(l, b, env);
    PhasesJoin(Broadcast(k, a, env), Broadcast(l, b, env), Rank(k));
    WhosConcat(Broadcast(k, a, env), Broadcast(l, b, env), kind);
    WhosBroadcast(k, a, env, kind);
    WhosBroadcast(l, b, env, kind);
  }

  // How many participants a prepare asks: up to and with the first that refuses.
  ghost predicate AskedUpTo(parts: seq<Resource>, env: Environment, n: nat) {
    && n <= |parts| && (forall i :: 0 <= i < n - 1 ==> env(Prepare, parts[i]) == Ok)
    && (if exists r :: r in parts && env(Prepare, r) != Ok then n > 0 && env(Prepare, parts[n - 1]) != Ok
        else n == |parts|)
  }

  lemma {:induction false} ValidationRounds(validators: seq<nat>, parts: seq<Resource>, env: Environment, kind: Kind)
    ensures var calls := ValidationCalls(validators, parts, env);
      && InPhases(calls) && UpTo(calls, 1)
      && Whos(calls, kind) ==
           match kind
           case Judge => validators
           case Accept => if forall v <- validators :: env(Judge, v) == Ok then parts else []
           case _ => []
  {
    TwoRounds(Judge, Accept, validators, if AllOk(Judge, validators, env) then parts else [], env, kind);
    assert Broadcast(Accept, [], env) == [];
  }

  lemma {:induction false} JoinRounds(a: seq<Call>, b: seq<Call>, n: nat, kind: Kind)
    requires InPhases(a) && InPhases(b) && UpTo(a, n) && From(b, n)
    ensures InPhases(a + b) && Whos(a + b, kind) == Whos(a, kind) + Whos(b, kind)
  {
    PhasesJoin(a, b, n);
    WhosConcat(a, b, kind);
  }

  // Who gets calls of one kind in a commit that asks n participants to prepare: all validators; all participants to
  // accept, if the validators passed; some to prepare, if it passed and there was no explicit prepare; all to commit if
  // it is decided, otherwise all to abort; and all to finish.
  function AskedIn(validators: seq<nat>, parts: seq<Resource>, judged: bool, preparing: bool, decided: bool, kind: Kind,
                   n: nat): seq<nat>
    requires n <= |parts|
  {
    match kind
    case Judge => validators
    case Accept => if judged then parts else []
    case Prepare => if preparing then parts[..n] else []
    case Commit => if decided then parts else []
    case Abort => if decided then [] else parts
    case Finish => parts
  }

  lemma {:induction false} RoundsJoin(v: seq<Call>, p: seq<Call>, last: seq<Call>, kind: Kind)
    requires InPhases(v) && InPhases(p) && InPhases(last)
    requires UpTo(v, 1) && From(p, 2) && UpTo(p, 2) && From(last, 3)
    ensures InPhases(v + last) && Whos(v + last, kind) == Whos(v, kind) + Whos(last, kind)
    ensures InPhases(v + p + last) && Whos(v + p + last, kind) == Whos(v, kind) + Whos(p, kind) + Whos(last, kind)
  {
    assert From(last, 1) && From(last, 2) && From(p, 1);
    JoinRounds(v, last, 1, kind);
    JoinRounds(v, p, 1, kind);
    assert UpTo(v + p, 2);
    JoinRounds(v + p, last, 2, kind);
  }

  lemma {:induction false} RoundsOf(validators: seq<nat>, parts: seq<Resource>, judged: bool, decided: bool,
                                    v: seq<Call>, p: seq<Call>, last: seq<Call>, kind: Kind, n: nat)
    requires n <= |parts|
    requires InPhases(v) && InPhases(p) && InPhases(last)
    requires UpTo(v, 1) && From(p, 2) && UpTo(p, 2) && From(last, 3)
    requires Whos(v, kind) == if kind == Judge then validators else if kind == Accept && judged then parts else []
    requires Whos(p, kind) == if kind == Prepare then parts[..n] else []
    requires Whos(last, kind) == if kind == Finish || kind == (if decided then Commit else Abort) then parts else []
    ensures InPhases(v + last) && InPhases(v + p + last)
    ensures Whos(v + last, kind) == AskedIn(validators, parts, judged, false, decided, kind, n)
    ensures Whos(v + p + last, kind) == AskedIn(validators, parts, judged, true, decided, kind, n)
  {
    RoundsJoin(v, p, last, kind);
    var none: seq<nat> := [];
    assert Whos(v, kind) + none == Whos(v, kind);
    assert none + none == none && none + Whos(last, kind) == Whos(last, kind);
    assert parts[..n] + none == parts[..n] && none + parts[..n] == parts[..n];
  }

  lemma {:induction false} EndingRounds(parts: seq<Resource>, env: Environment, decided: bool, kind: Kind)
    ensures var last := if decided then CommitCalls(parts, env) else AbortCalls(parts, env);
      && InPhases(last) && From(last, 3)
      && Whos(last, kind) == if kind == Finish || kind == (if decided then Commit else Abort) then parts else []
  {
    TwoRounds(if decided then Commit else Abort, Finish, parts, parts, env, kind);
  }

  // A validation, perhaps a prepare, and the last two rounds.
  lemma {:induction false} AllRounds(validators: seq<nat>, parts: seq<Resource>, env: Environment, judged: bool,
                                     decided: bool, last: seq<Call>, kind: Kind, n: nat)
    requires n <= |parts| && judged == forall v <- validators :: env(Judge, v) == Ok
    requires InPhases(last) && From(last, 3)
    requires Whos(last, kind) == if kind == Finish || kind == (if decided then Commit else Abort) then parts else []
    ensures var v, p := ValidationCalls(validators, parts, env), Broadcast(Prepare, parts[..n], env);
      && InPhases(v + last) && InPhases(v + p + last)
      && Whos(v + last, kind) == AskedIn(validators, parts, judged, false, decided, kind, n)
      && Whos(v + p + last, kind) == AskedIn(validators, parts, judged, true, decided, kind, n)
  {
    var v, p := ValidationCalls(validators, parts, env), Broadcast(Prepare, parts[..n], env);
    ValidationRounds(validators, parts, env, kind);
    BroadcastIsOnePhase(Prepare, parts[..n], env);
    WhosBroadcast(Prepare, parts[..n], env, kind);
    RoundsOf(validators, parts, judged, decided, v, p, last, kind, n);
  }

  // One commit: every phase is over before the next begins, and in each exactly those are asked who should be, in the
  // order in which they registered.
  lemma {:induction false} CommitAsksInOrder(validators: seq<nat>, parts: seq<Resource>, early: bool, env: Environment,
                                             kind: Kind, n: nat)
    requires AskedUpTo(parts, env, n)
    ensures var calls := CommitOutcome(validators, parts, early, env).calls;
      var judged := forall v <- validators :: env(Judge, v) == Ok;
      var passed := judged && forall r <- parts :: env(Accept, r) == Ok;
      var decided := passed && (early || forall r <- parts :: env(Prepare, r) == Ok);
      InPhases(calls) && Whos(calls, kind) == AskedIn(validators, parts, judged, passed && !early, decided, kind, n)
  {
    var judged := forall v <- validators :: env(Judge, v) == Ok;
    var passed := judged && forall r <- parts :: env(Accept, r) == Ok;
    var decided := passed && (early || forall r <- parts :: env(Prepare, r) == Ok);
    CommitIsRounds(validators, parts, early, env, passed, decided, n);
    EndingRounds(parts, env, decided, kind);
    var last := if decided then CommitCalls(parts, env) else AbortCalls(parts, env);
    AllRounds(validators, parts, env, judged, decided, last, kind, n);
  }

  lemma {:induction false} CommitIsRounds(validators: seq<nat>, parts: seq<Resource>, early: bool, env: Environment,
                                          passed: bool, decided: bool, n: nat)
    requires AskedUpTo(parts, env, n)
    requires passed <==> (forall v <- validators :: env(Judge, v) == Ok) && forall r <- parts :: env(Accept, r) == Ok
    requires decided <==> passed && (early || forall r <- parts :: env(Prepare, r) == Ok)
    ensures var v, p := ValidationCalls(validators, parts, env), Broadcast(Prepare, parts[..n], env);
      var last := if decided then CommitCalls(parts, env) else AbortCalls(parts, env);
      CommitOutcome(validators, parts, early, env).calls == if passed && !early then v + p + last else v + last
  {
    AskedIsUpTo(parts, env, n);
    assert passed <==> Passes(validators, parts, env);
    assert decided <==> passed && (early || AllOk(Prepare, parts, env));
  }

  lemma {:induction false} AskedIsUpTo(parts: seq<Resource>, env: Environment, n: nat)
    requires AskedUpTo(parts, env, n)
    ensures n == Asked(parts, env)
  {
    assert AllOk(Prepare, parts, env) <==> !exists r :: r in parts && env(Prepare, r) != Ok;
  }

  // ------------------------------------------------------------------ who takes part, and on which terms

  // Those whose registration in h was accepted, in order.
  ghost function RegisteredIn(s: Master, ops: seq<Op>, h: Handle): seq<Resource>
    requires WellFormed(s)
    decreases |ops|
  {
    if ops == [] then []
    else
      var r := Step(s, ops[0]);
      (if ops[0].Register? && ops[0].tx == h && r.code == Ok then [ops[0].resource] else [])
      + RegisteredIn(r.master, ops[1..], h)
  }

  function PartsOf(s: Master, h: Handle): seq<Resource> {
    if h < |s.log| then s.log[h].parts else []
  }

  lemma {:induction false} StepRegisters(s: Master, op: Op, h: Handle)
    requires WellFormed(s)
    ensures PartsOf(Step(s, op).master, h) ==
      PartsOf(s, h) + if op.Register? && op.tx == h && Step(s, op).code == Ok then [op.resource] else []
  {
    assert PartsOf(s, h) + [] == PartsOf(s, h);
  }

  // In every run the participants of a transaction are those whose registration was accepted, in that order.
  lemma {:induction false} PartsAreTheRegistered(s: Master, ops: seq<Op>, h: Handle)
    requires WellFormed(s)
    ensures PartsOf(Run(s, ops), h) == PartsOf(s, h) + RegisteredIn(s, ops, h)
    decreases |ops|
  {
    if ops != [] {
      var t := Step(s, ops[0]).master;
      StepRegisters(s, ops[0], h);
      PartsAreTheRegistered(t, ops[1..], h);
      ConcatAssoc(PartsOf(s, h), if ops[0].Register? && ops[0].tx == h && Step(s, ops[0]).code == Ok
                                 then [ops[0].resource] else [], RegisteredIn(t, ops[1..], h));
    }
  }

  lemma {:induction false} StepKeepsTerms(s: Master, op: Op, h: Handle)
    requires WellFormed(s) && h in s.txs && h in Step(s, op).master.txs
    ensures var a, b := s.txs[h], Step(s, op).master.txs[h]; a.policy == b.policy && a.timeout == b.timeout
  {
  }

  lemma {:induction false} RunKeepsTerms(s: Master, ops: seq<Op>, h: Handle)
    requires WellFormed(s) && h in s.txs && h in Run(s, ops).txs
    ensures var a, b := s.txs[h], Run(s, ops).txs[h]; a.policy == b.policy && a.timeout == b.timeout
    decreases |ops|
  {
    if ops != [] {
      var t := Step(s, ops[0]).master;
      if h in t.txs {
        StepKeepsTerms(s, ops[0], h);
        RunKeepsTerms(t, ops[1..], h);
      } else {
        StaysGone(t, ops[1..], h);
      }
    }
  }

  // A transaction is started if and only if its timeout is at most a day.  It gets a handle never given out before, and
  // for as long as it is remembered its lock policy and timeout are those it was started with.
  lemma {:induction false} TermsAreKept(s: Master, policy: LockPolicy, timeout: nat, ops: seq<Op>)
    requires WellFormed(s)
    ensures var r := Step(s, New(policy, timeout)); var h := |s.log|;
      && (r.code == Ok <==> timeout <= 86400) && (r.code != Ok ==> r == Reply(s, InvalidArgument))
      && h !in s.txs
      && (r.code == Ok ==> h in r.master.txs && r.master.txs[h].phase.Active? && PartsOf(r.master, h) == []
                           && forall x :: ContextOf(r.master, h, x) == None)
      && (r.code == Ok && h in Run(r.master, ops).txs ==>
            Run(r.master, ops).txs[h].policy == policy && Run(r.master, ops).txs[h].timeout == timeout)
  {
    var r := Step(s, New(policy, timeout));
    if r.code == Ok && |s.log| in Run(r.master, ops).txs {
      RunKeepsTerms(r.master, ops, |s.log|);
    }
  }
}
