/**
 The transaction master: a two-phase-commit coordinator over any number of validators and
 participants, with explicit prepare, per-participant contexts and an idle timer.

 The specification is a value machine: Master is the whole state, Step serves one call and Run a
 sequence of calls.  Participants and validators are unconstrained: every call carries the answers
 they give.  The class TransactionMaster is the imperative coordinator; each of its methods is
 proved to take exactly one Step.
*/
module TransactionService {
  import opened Common

  type Handle = nat
  type Resource = nat

  const MAX_TIMEOUT: nat := 86400
  const REMEMBERED: nat := 3600

  // What the coordinator can ask of a validator (Judge) or of a participant (the others).
  datatype Kind = Judge | Accept | Prepare | Commit | Abort | Finish

  datatype Call = Call(kind: Kind, who: nat, answer: ReturnCode)

  // The answers the outside world gives while one call is served.
  type Environment = (Kind, nat) -> ReturnCode

  datatype Phase = Active | Prepared | TimedOut(at: nat)

  // Stopped until the first MO call, never running while MO calls are outstanding.
  datatype Timer = Stopped | Outstanding(calls: nat) | Idle(since: nat)

  datatype Tx = Tx(policy: LockPolicy, timeout: nat, phase: Phase, parts: seq<Resource>,
                   contexts: map<Resource, int>, timer: Timer)

  // The history of one transaction, kept for good.
  datatype Record = Record(parts: seq<Resource>, calls: seq<Call>)

  datatype Master = Master(validators: seq<nat>, now: nat, txs: map<Handle, Tx>, log: seq<Record>)

  datatype Reply = Reply(master: Master, code: ReturnCode)

  datatype Op =
    | New(policy: LockPolicy, timeout: nat)
    | Register(tx: Handle, resource: Resource)
    | SetContext(tx: Handle, resource: Resource, context: int)
    | Query(tx: Handle)
    | BeginMoCall(tx: Handle)
    | EndMoCall(tx: Handle)
    | ValidateTx(tx: Handle, env: Environment)
    | ExplicitPrepare(tx: Handle, env: Environment)
    | CommitTx(tx: Handle, env: Environment)
    | AbortTx(tx: Handle, env: Environment)
    | Tick(env: Environment)

  // ------------------------------------------------------------------ calls to participants

  predicate AllOk(kind: Kind, whos: seq<nat>, env: Environment) {
    forall w <- whos :: env(kind, w) == Ok
  }

  function Broadcast(kind: Kind, whos: seq<nat>, env: Environment): seq<Call> {
    if whos == [] then []
    else [Call(kind, whos[0], env(kind, whos[0]))] + Broadcast(kind, whos[1..], env)
  }

  // How many participants are asked to prepare: everyone up to and including the first refusal.
  function Asked(whos: seq<nat>, env: Environment): (n: nat)
    ensures n <= |whos|
    ensures forall i :: 0 <= i < n - 1 ==> env(Prepare, whos[i]) == Ok
    ensures !AllOk(Prepare, whos, env) ==> n > 0 && env(Prepare, whos[n - 1]) != Ok
    ensures AllOk(Prepare, whos, env) ==> n == |whos|
  {
    if whos == [] then 0
    else if env(Prepare, whos[0]) != Ok then 1
    else
      assert whos == [whos[0]] + whos[1..];
      1 + Asked(whos[1..], env)
  }

  predicate Passes(validators: seq<nat>, parts: seq<Resource>, env: Environment) {
    AllOk(Judge, validators, env) && AllOk(Accept, parts, env)
  }

  // Every validator is asked; the participants are asked if and only if all validators passed.
  function ValidationCalls(validators: seq<nat>, parts: seq<Resource>, env: Environment): seq<Call> {
    Broadcast(Judge, validators, env) +
    (if AllOk(Judge, validators, env) then Broadcast(Accept, parts, env) else [])
  }

  function PrepareCalls(parts: seq<Resource>, env: Environment): seq<Call> {
    Broadcast(Prepare, parts[..Asked(parts, env)], env)
  }

  function AbortCalls(parts: seq<Resource>, env: Environment): seq<Call> {
    Broadcast(Abort, parts, env) + Broadcast(Finish, parts, env)
  }

  function CommitCalls(parts: seq<Resource>, env: Environment): seq<Call> {
    Broadcast(Commit, parts, env) + Broadcast(Finish, parts, env)
  }

  datatype Outcome = Outcome(code: ReturnCode, calls: seq<Call>)

  // The second phase, entered once everyone has prepared.
  function SecondPhase(parts: seq<Resource>, env: Environment): Outcome {
    Outcome(if AllOk(Commit, parts, env) then Ok else CommitFailed, CommitCalls(parts, env))
  }

  function CommitOutcome(validators: seq<nat>, parts: seq<Resource>, prepared: bool, env: Environment): Outcome {
    var v := ValidationCalls(validators, parts, env);
    if !Passes(validators, parts, env) then
      Outcome(ValidationFailed, v + AbortCalls(parts, env))
    else if prepared then
      var second := SecondPhase(parts, env);
      Outcome(second.code, v + second.calls)
    else if !AllOk(Prepare, parts, env) then
      Outcome(PrepareFailed, v + PrepareCalls(parts, env) + AbortCalls(parts, env))
    else
      var second := SecondPhase(parts, env);
      Outcome(second.code, v + PrepareCalls(parts, env) + second.calls)
  }

  // ------------------------------------------------------------------ the state machine

  function Init(validators: seq<nat>): Master {
    Master(validators, 0, map[], [])
  }

  predicate WellFormed(s: Master) {
    forall h <- s.txs :: h < |s.log| && s.log[h].parts == s.txs[h].parts
  }

  function Logged(s: Master, h: Handle, calls: seq<Call>): Master
    requires h < |s.log|
  {
    s.(log := s.log[h := Record(s.log[h].parts, s.log[h].calls + calls)])
  }

  // The transaction is over: its calls are on record and its handle no longer exists.
  function Ended(s: Master, h: Handle, calls: seq<Call>): Master
    requires h < |s.log|
  {
    Logged(s, h, calls).(txs := s.txs - {h})
  }

  function Started(s: Master, policy: LockPolicy, timeout: nat): (r: Reply)
    ensures WellFormed(s) ==> WellFormed(r.master)
  {
    if timeout > MAX_TIMEOUT then Reply(s, InvalidArgument)
    else Reply(s.(txs := s.txs[|s.log| := Tx(policy, timeout, Active, [], map[], Stopped)],
                  log := s.log + [Record([], [])]), Ok)
  }

  predicate Expires(tx: Tx, now: nat) {
    !tx.phase.TimedOut? && tx.timer.Idle? && now >= tx.timer.since + tx.timeout
  }

  predicate Forgotten(tx: Tx, now: nat) {
    tx.phase.TimedOut? && now >= tx.phase.at + REMEMBERED
  }

  // One second passes.
  function Ticked(s: Master, env: Environment): (t: Master)
    requires WellFormed(s)
    ensures WellFormed(t)
  {
    var now := s.now + 1;
    Master(s.validators, now,
           map h | h in s.txs && !Forgotten(s.txs[h], now) ::
             if Expires(s.txs[h], now) then s.txs[h].(phase := TimedOut(now)) else s.txs[h],
           seq(|s.log|, h requires 0 <= h < |s.log| =>
             if h in s.txs && Expires(s.txs[h], now)
             then Record(s.log[h].parts, s.log[h].calls + AbortCalls(s.log[h].parts, env))
             else s.log[h]))
  }

  function MoreCalls(t: Timer): Timer {
    if t.Outstanding? then Outstanding(t.calls + 1) else Outstanding(1)
  }

  predicate IsWork(op: Op) {
    op.Register? || op.SetContext? || op.BeginMoCall? || op.ValidateTx? || op.ExplicitPrepare?
  }

  // Serve a call on a transaction that is neither unknown nor timed out.
  function Served(s: Master, op: Op): (r: Reply)
    requires WellFormed(s) && !op.New? && !op.Tick?
    requires op.tx in s.txs && !s.txs[op.tx].phase.TimedOut?
    ensures WellFormed(r.master)
  {
    var h := op.tx;
    var tx := s.txs[h];
    if IsWork(op) then
      if tx.phase.Prepared? then Reply(s, Failure) else Worked(s, op)
    else
      match op
      case Query(_) => Reply(s, Ok)
      case EndMoCall(_) =>
        if !tx.timer.Outstanding? then Reply(s, Failure)
        else
          var t := if tx.timer.calls <= 1 then Idle(s.now) else Outstanding(tx.timer.calls - 1);
          Reply(s.(txs := s.txs[h := tx.(timer := t)]), Ok)
      case CommitTx(_, env) =>
        if tx.parts == [] then Reply(s, NotExist)
        else
          var o := CommitOutcome(s.validators, tx.parts, tx.phase.Prepared?, env);
          Reply(Ended(s, h, o.calls), o.code)
      case AbortTx(_, env) =>
        Reply(Ended(s, h, AbortCalls(tx.parts, env)), Ok)
  }

  // The calls that are only allowed before an explicit prepare.
  function Worked(s: Master, op: Op): (r: Reply)
    requires WellFormed(s)
    requires IsWork(op) && op.tx in s.txs
    ensures WellFormed(r.master)
  {
    var h := op.tx;
    var tx := s.txs[h];
    match op
    case Register(_, r) =>
      if r in tx.parts then Reply(s, AlreadyExist)
      else
        var parts := tx.parts + [r];
        Reply(s.(txs := s.txs[h := tx.(parts := parts)],
                 log := s.log[h := Record(parts, s.log[h].calls)]), Ok)
    case SetContext(_, r, c) =>
      if r !in tx.parts then Reply(s, NotExist)
      else Reply(s.(txs := s.txs[h := tx.(contexts := tx.contexts[r := c])]), Ok)
    case BeginMoCall(_) =>
      Reply(s.(txs := s.txs[h := tx.(timer := MoreCalls(tx.timer))]), Ok)
    case ValidateTx(_, env) =>
      Reply(Logged(s, h, ValidationCalls(s.validators, tx.parts, env)), Ok)
    case ExplicitPrepare(_, env) =>
      if tx.parts == [] then Reply(s, NotExist)
      else if AllOk(Prepare, tx.parts, env) then
        Reply(Logged(s, h, PrepareCalls(tx.parts, env)).(txs := s.txs[h := tx.(phase := Prepared)]), Ok)
      else
        Reply(Ended(s, h, PrepareCalls(tx.parts, env) + AbortCalls(tx.parts, env)), PrepareFailed)
  }

  function Step(s: Master, op: Op): (r: Reply)
    requires WellFormed(s)
    ensures WellFormed(r.master)
  {
    match op
    case New(policy, timeout) => Started(s, policy, timeout)
    case Tick(env) => Reply(Ticked(s, env), Ok)
    case _ =>
      if op.tx !in s.txs then Reply(s, NotExist)
      else if s.txs[op.tx].phase.TimedOut? then Reply(s.(txs := s.txs - {op.tx}), TimeOut)
      else Served(s, op)
  }

  ghost function Run(s: Master, ops: seq<Op>): (r: Master)
    requires WellFormed(s)
    ensures WellFormed(r)
    decreases |ops|
  {
    if ops == [] then s else Run(Step(s, ops[0]).master, ops[1..])
  }
}
