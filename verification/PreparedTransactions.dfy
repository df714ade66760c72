/**
 Explicit prepare: what is served between it and the end of the transaction, and that committing afterwards,
 whatever has happened meanwhile, is the plain commit.
*/
module PreparedTransactions {
  import opened Common
  import opened TransactionService
  import opened TransactionProofs
  import opened TransactionLifetime

  // Between an explicit prepare and its end, a request on the transaction is served exactly if it is commit or abort,
  // or a look-up, which changes nothing, or the return of an MO call that was outstanding, which changes only the
  // timer.  Every other request is refused and changes nothing.
  lemma {:induction false} OnlyCommitOrAbort(s: Master, op: Op)
    requires WellFormed(s) && !op.New? && !op.Tick?
    requires op.tx in s.txs && s.txs[op.tx].phase.Prepared?
    ensures var r := Step(s, op); var tx := s.txs[op.tx];
      match op
      case CommitTx(_, _) => r.code != Failure
      case AbortTx(_, _) => r.code == Ok
      case Query(_) => r == Reply(s, Ok)
      case EndMoCall(_) =>
        && (r.code == Ok <==> tx.timer.Outstanding?)
        && (r.code == Ok ==> op.tx in r.master.txs && r.master == s.(txs := s.txs[op.tx := r.master.txs[op.tx]])
                             && r.master.txs[op.tx] == tx.(timer := r.master.txs[op.tx].timer))
        && (r.code != Ok ==> r == Reply(s, Failure))
      case _ => r == Reply(s, Failure)
  {
  }

  // ------------------------------------------------------------------ the wait in between

  lemma {:induction false} StepKeepsPrepared(s: Master, op: Op, h: Handle)
    requires WellFormed(s) && h in s.txs && s.txs[h].phase.Prepared?
    requires h in Step(s, op).master.txs && !Step(s, op).master.txs[h].phase.TimedOut?
    ensures var t := Step(s, op).master;
      && t.txs[h].phase.Prepared? && t.txs[h].parts == s.txs[h].parts && t.log[h] == s.log[h]
      && t.validators == s.validators
  {
    if !op.New? && !op.Tick? && op.tx == h {
      OnlyCommitOrAbort(s, op);
    }
  }

  // While it neither ends nor times out, a prepared transaction stays as it was prepared, whatever is called.
  lemma {:induction false} PreparedStays(s: Master, ops: seq<Op>, h: Handle)
    requires WellFormed(s) && h in s.txs && s.txs[h].phase.Prepared?
    requires Alive(Run(s, ops), h)
    ensures var t := Run(s, ops);
      && t.txs[h].phase.Prepared? && t.txs[h].parts == s.txs[h].parts && t.log[h] == s.log[h]
      && t.validators == s.validators
    decreases |ops|
  {
    if ops != [] {
      var t := Step(s, ops[0]).master;
      StageForward(s, ops[0], h);
      RunForward(t, ops[1..], h);
      StepKeepsPrepared(s, ops[0], h);
      PreparedStays(t, ops[1..], h);
    }
  }

  // ------------------------------------------------------------------ early and late answers

  // Prepare is answered as by a, everything else as by b.
  function Joint(a: Environment, b: Environment): Environment {
    (kind: Kind, who: nat) => if kind == Prepare then a(kind, who) else b(kind, who)
  }

  lemma {:induction false} SameBroadcast(kind: Kind, whos: seq<nat>, a: Environment, b: Environment)
    requires forall w <- whos :: a(kind, w) == b(kind, w)
    ensures Broadcast(kind, whos, a) == Broadcast(kind, whos, b)
    ensures AllOk(kind, whos, a) <==> AllOk(kind, whos, b)
  {
    if whos != [] {
      SameBroadcast(kind, whos[1..], a, b);
    }
  }

  lemma {:induction false} JointValidation(validators: seq<nat>, parts: seq<Resource>, a: Environment, b: Environment)
    ensures ValidationCalls(validators, parts, Joint(a, b)) == ValidationCalls(validators, parts, b)
    ensures Passes(validators, parts, Joint(a, b)) <==> Passes(validators, parts, b)
  {
    SameBroadcast(Judge, validators, Joint(a, b), b);
    SameBroadcast(Accept, parts, Joint(a, b), b);
  }

  lemma {:induction false} JointEnd(parts: seq<Resource>, a: Environment, b: Environment)
    ensures AbortCalls(parts, Joint(a, b)) == AbortCalls(parts, b)
    ensures CommitCalls(parts, Joint(a, b)) == CommitCalls(parts, b)
    ensures AllOk(Commit, parts, Joint(a, b)) <==> AllOk(Commit, parts, b)
  {
    SameBroadcast(Abort, parts, Joint(a, b), b);
    SameBroadcast(Commit, parts, Joint(a, b), b);
    SameBroadcast(Finish, parts, Joint(a, b), b);
  }

  lemma {:induction false} JointPrepare(parts: seq<Resource>, a: Environment, b: Environment)
    requires AllOk(Prepare, parts, a)
    ensures AllOk(Prepare, parts, Joint(a, b)) && PrepareCalls(parts, Joint(a, b)) == PrepareCalls(parts, a)
  {
    SameBroadcast(Prepare, parts, Joint(a, b), a);
    assert parts[..|parts|] == parts;
  }

  // ------------------------------------------------------------------ the refinement

  // Preparing explicitly and committing later, with any calls in between that neither end the transaction nor let it
  // time out, is one plain commit given the early answers to prepare and the late answers to everything else: the
  // same code, and every participant hears the same calls in the same order.  When validation refuses, both abort
  // everyone.
  lemma {:induction false} ExplicitPrepareRefinesCommit(s: Master, h: Handle, early: Environment, ops: seq<Op>,
                                                        late: Environment)
    requires Open(s, h) && AllOk(Prepare, s.txs[h].parts, early)
    requires Alive(Run(Step(s, ExplicitPrepare(h, early)).master, ops), h)
    ensures Step(s, ExplicitPrepare(h, early)).code == Ok
    ensures var t := Run(Step(s, ExplicitPrepare(h, early)).master, ops);
      var waited := Step(t, CommitTx(h, late));
      var plain := Step(s, CommitTx(h, Joint(early, late)));
      && waited.code == plain.code
      && waited.master.txs == t.txs - {h} && plain.master.txs == s.txs - {h}
      && (if Passes(s.validators, s.txs[h].parts, late)
          then SameStories(waited.master.log[h], plain.master.log[h])
          else AllAborted(waited.master.log[h]) && AllAborted(plain.master.log[h]))
  {
    var rec := s.log[h];
    var parts := rec.parts;
    assert RecordOk(s, h);
    var u := Step(s, ExplicitPrepare(h, early)).master;
    assert u.txs[h].phase.Prepared? && u.txs[h].parts == parts && u.validators == s.validators;
    assert u.log[h] == Record(parts, rec.calls + PrepareCalls(parts, early));
    PreparedStays(u, ops, h);
    CommitStepIs(Run(u, ops), h, late);
    CommitStepIs(s, h, Joint(early, late));
    JointValidation(s.validators, parts, early, late);
    JointEnd(parts, early, late);
    JointPrepare(parts, early, late);
    LateIsPlain(s.validators, rec, early, late);
  }

  lemma {:induction false} LateIsPlain(validators: seq<nat>, rec: Record, early: Environment, late: Environment)
    requires NoDup(rec.parts) && AllFresh(rec) && AllOk(Prepare, rec.parts, early)
    ensures var v := ValidationCalls(validators, rec.parts, late);
      var p := PrepareCalls(rec.parts, early);
      if Passes(validators, rec.parts, late) then
        var c := CommitCalls(rec.parts, late);
        SameStories(Record(rec.parts, rec.calls + p + (v + c)), Record(rec.parts, rec.calls + (v + p + c)))
      else
        var a := AbortCalls(rec.parts, late);
        AllAborted(Record(rec.parts, rec.calls + p + (v + a))) && AllAborted(Record(rec.parts, rec.calls + (v + a)))
  {
    var v, p := ValidationCalls(validators, rec.parts, late), PrepareCalls(rec.parts, early);
    if Passes(validators, rec.parts, late) {
      var c := CommitCalls(rec.parts, late);
      forall r ensures Heard(rec.calls + p + (v + c), r) == Heard(rec.calls + (v + p + c), r) {
        HeardValidation(validators, rec.parts, late, r);
        SilentMoves(rec.calls, p, v, c, r);
      }
    } else {
      ExplicitPrepareOk(validators, rec, early);
      RefusedCommitOk(validators, rec, late);
      RefusedCommitOk(validators, Extended(rec, p), late);
    }
  }
}
