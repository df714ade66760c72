/**
 What a client of the store can rely on, said of the requests it makes and the answers it is given.

 A transaction keeps the policy it was begun with; under ComLockReadWrite equal requests with no write between
 them are answered alike, in any run; every answer and every refusal is fixed by the tree in the transaction's
 sight and by what other open transactions have touched; and a transaction reads what it has written.
*/
module StoreAnswers {
  import opened Common
  import opened ManagedObjects
  import opened Serializability

  // ------------------------------------------------------------------ the policy

  lemma {:induction false} StepKeepsPolicy(s: Store, q: Request, h: nat)
    requires HandlesBelow(s) && h in s.live && h in Step(s, q).store.live
    ensures Step(s, q).store.live[h].policy == s.live[h].policy
  {
  }

  lemma {:induction false} RunKeepsPolicy(s: Store, qs: seq<Request>, h: nat)
    requires HandlesBelow(s) && h in s.live && h in Run(s, qs).live
    ensures Run(s, qs).live[h].policy == s.live[h].policy
    decreases |qs|
  {
    if qs != [] {
      var t := Step(s, qs[0]).store;
      if h in t.live {
        StepKeepsPolicy(s, qs[0], h);
        RunKeepsPolicy(t, qs[1..], h);
      } else {
        EndedStaysEnded(t, qs[1..], h);
      }
    }
  }

  lemma {:induction false} ReachableHandles(t0: Tree, qs: seq<Request>)
    ensures Consistent(t0, Run(Start(t0), qs)) && HandlesBelow(Run(Start(t0), qs))
  {
    RunKeeps(t0, Start(t0), qs);
    var s := Run(Start(t0), qs);
    forall h | h in s.live ensures h < s.next {
      assert TxOk(s, h);
    }
  }

  // From its begin in any run a transaction has the policy it asked for, for as long as it is open.
  lemma {:induction false} PolicyIsKept(t0: Tree, before: seq<Request>, policy: LockPolicy, after: seq<Request>)
    ensures var s := Run(Start(t0), before); var begun := Step(s, Begin(policy));
      && begun.code == Ok && s.next !in s.live && s.next in begun.store.live
      && (s.next in Run(begun.store, after).live ==> Run(begun.store, after).live[s.next].policy == policy)
  {
    var s := Run(Start(t0), before);
    ReachableHandles(t0, before);
    if s.next in Run(Step(s, Begin(policy)).store, after).live {
      RunKeepsPolicy(Step(s, Begin(policy)).store, after, s.next);
    }
  }

  // ------------------------------------------------------------------ repeating a request

  // Equal requests without a write between them have equal answers.
  ghost predicate Repeats(log: seq<Entry>) {
    forall i, j :: 0 <= i < j < |log| && log[i].op == log[j].op && (forall k :: i <= k < j ==> !IsWrite(log[k].op)) ==>
      log[i].answer == log[j].answer
  }

  lemma {:induction false} ExplainedRepeats(t: Tree, log: seq<Entry>)
    requires Explains(t, LockReadWrite, log)
    ensures Repeats(log)
  {
    forall i, j | 0 <= i < j < |log| && log[i].op == log[j].op && (forall k :: i <= k < j ==> !IsWrite(log[k].op))
      ensures log[i].answer == log[j].answer
    {
      ExplainsAt(t, LockReadWrite, log, i);
      ExplainsAt(t, LockReadWrite, log, j);
      ReadsLeaveTheTree(t, log, i, j);
    }
  }

  lemma {:induction false} LogRepeats(t0: Tree, s: Store, h: nat)
    requires Consistent(t0, s) && h in s.live && s.live[h].policy == LockReadWrite
    ensures Repeats(s.live[h].log)
  {
    assert TxOk(s, h);
    ExplainedRepeats(s.committed, s.live[h].log);
  }

  lemma {:induction false} GivenRepeats(t0: Tree, s: Store, qs: seq<Request>, h: nat)
    requires Consistent(t0, s) && HandlesBelow(s) && h in s.live && s.live[h].policy == LockReadWrite
    ensures Repeats(s.live[h].log + Given(s, qs, h))
    decreases |qs|
  {
    LogRepeats(t0, s, h);
    if qs == [] {
      assert s.live[h].log + [] == s.live[h].log;
    } else {
      var t := Step(s, qs[0]).store;
      StepKeeps(t0, s, qs[0]);
      GivenSplits(s, qs, h);
      if h in t.live {
        StepKeepsPolicy(s, qs[0], h);
        GivenRepeats(t0, t, qs[1..], h);
      }
    }
  }

  // What a transaction has been given and will be given, before and after a step.
  lemma {:induction false} GivenSplits(s: Store, qs: seq<Request>, h: nat)
    requires HandlesBelow(s) && h in s.live && qs != []
    ensures var t := Step(s, qs[0]).store;
      && HandlesBelow(t)
      && s.live[h].log + Given(s, qs, h) ==
           if h in t.live then t.live[h].log + Given(t, qs[1..], h) else s.live[h].log
  {
    var t := Step(s, qs[0]).store;
    if h in t.live {
      StepGives(s, qs[0], h);
      ConcatAssoc(s.live[h].log, GivenNow(s, qs[0], h), Given(t, qs[1..], h));
    } else {
      EndedStaysEnded(t, qs[1..], h);
      assert s.live[h].log + ([] + []) == s.live[h].log;
    }
  }

  // A client that begins with ComLockReadWrite, in any run and whatever others do afterwards: two equal requests of its
  // transaction, with no write of its own between them, are given the same answer.
  lemma {:induction false} ReadWriteLocksRepeat(t0: Tree, before: seq<Request>, after: seq<Request>, i: nat, j: nat)
    requires var s := Run(Start(t0), before);
      var given := Given(Step(s, Begin(LockReadWrite)).store, after, s.next);
      && i < j < |given| && given[i].op == given[j].op
      && forall k :: i <= k < j ==> !IsWrite(given[k].op)
    ensures var s := Run(Start(t0), before);
      var given := Given(Step(s, Begin(LockReadWrite)).store, after, s.next);
      given[i].answer == given[j].answer
  {
    ReachableHandles(t0, before);
    BegunRepeats(t0, Run(Start(t0), before), after);
  }

  lemma {:induction false} BegunRepeats(t0: Tree, s: Store, after: seq<Request>)
    requires Consistent(t0, s) && HandlesBelow(s)
    ensures Repeats(Given(Step(s, Begin(LockReadWrite)).store, after, s.next))
  {
    StepKeeps(t0, s, Begin(LockReadWrite));
    var t := Step(s, Begin(LockReadWrite)).store;
    assert t.live[s.next].log == [];
    GivenRepeats(t0, t, after, s.next);
    assert [] + Given(t, after, s.next) == Given(t, after, s.next);
  }

  // ------------------------------------------------------------------ answers

  // What each operation is answered, by what is in the tree.
  lemma {:induction false} AnswersMean(op: Op, t: Tree)
    ensures var a := AnswerOf(op, t);
      match op
      case Exists(d) => a.Found? && (a.found <==> d in t)
      case Get(d, names) =>
        && (a == Refused(NotExist) <==> d !in t)
        && (d in t ==>
              && a.Values? && |a.values| == |names|
              && forall i :: 0 <= i < |names| ==>
                   a.values[i] == if names[i] in t[d] then t[d][names[i]] else [])
      case Children(p, moc) => a.Keys? && forall k :: k in a.keys <==> ChildDn(p, moc, k) in t
      case Create(p, moc, _, key, _) =>
        && (a == Refused(NotExist) <==> p != [] && p !in t)
        && (a == Refused(AlreadyExist) <==> (p == [] || p in t) && ChildDn(p, moc, key) in t)
        && (a == Done <==> (p == [] || p in t) && ChildDn(p, moc, key) !in t)
      case Set(d, _) => (a == Done <==> d in t) && (a == Refused(NotExist) <==> d !in t)
      case Delete(d) => (a == Done <==> d in t) && (a == Refused(NotExist) <==> d !in t)
  {
    if op.Children? {
      forall k ensures k in ChildKeys(t, op.parent, op.moc) <==> ChildDn(op.parent, op.moc, k) in t {
        IsChildDn(t, op.parent, op.moc, k);
      }
    }
  }

  // What an attribute reads as: no values when it is not set.
  function ValueIn(mo: Mo, name: string): Value {
    if name in mo then mo[name] else []
  }

  lemma {:induction false} AssignedValue(mo: Mo, attrs: seq<Assignment>, name: string)
    ensures var last := LastFor(attrs, name);
      ValueIn(AssignAll(mo, attrs), name) == if last.Some? then last.value else ValueIn(mo, name)
  {
    BulkSetReplaces(mo, attrs, name);
    assert forall m: Mo :: ReadAll(m, [name])[0] == ValueIn(m, name);
  }

  // What every attribute reads as after a write: the key attribute of a new MO is its key and its others are as
  // initialised; a set gives the last value for each name it names.
  lemma {:induction false} ValuesAfterWrite(op: Op, t: Tree, name: string)
    requires AnswerOf(op, t) == Done
    ensures var after := Exec(op, t).tree;
      match op
      case Create(p, moc, keyName, key, initial) =>
        var d := ChildDn(p, moc, key); var last := LastFor(initial, name);
        d in after &&
        ValueIn(after[d], name) == if name == keyName then [key] else if last.Some? then last.value else []
      case Set(d, attrs) =>
        var last := LastFor(attrs, name);
        d in after && d in t && ValueIn(after[d], name) == if last.Some? then last.value else ValueIn(t[d], name)
      case _ => true
  {
    match op {
      case Create(_, _, _, _, initial) => AssignedValue(map[], initial, name);
      case Set(d, attrs) => AssignedValue(t[d], attrs, name);
      case _ =>
    }
  }

  // ------------------------------------------------------------------ locks

  // The operation, so answered, reads or changes d, and the policy protects that.
  predicate Touches(policy: LockPolicy, op: Op, answer: Answer, d: Dn) {
    (policy == LockReadWrite || op.Set? || op.Create? || op.Delete?) &&
    match op
    case Set(x, _) => d == x
    case Create(p, moc, _, key, _) => d == p || d == ChildDn(p, moc, key)
    case Delete(x) => x <= d
    case Get(x, _) => d == x
    case Exists(x) => d == x
    case Children(p, moc) => d == p || (answer.Keys? && exists k :: k in answer.keys && d == ChildDn(p, moc, k))
  }

  // Exactly what is touched is locked.
  lemma {:induction false} NeededIsTouched(policy: LockPolicy, op: Op, answer: Answer, d: Dn)
    ensures Covers(Needed(policy, op, answer), d) <==> Touches(policy, op, answer, d)
  {
    if op.Delete? && Locked(policy, op) {
      assert op.dn in Footprint(op, answer).trees;
    }
  }

  // What the transaction holds is exactly what its operations touched.
  ghost predicate HoldsTouched(tx: Tx) {
    forall d :: Covers(tx.locks, d) <==> exists e :: e in tx.log && Touches(tx.policy, e.op, e.answer, d)
  }

  ghost predicate AllHold(s: Store) {
    forall h <- s.live :: HoldsTouched(s.live[h])
  }

  lemma {:induction false} LockedByOneMore(tx: Tx, e: Entry)
    requires HoldsTouched(tx)
    ensures HoldsTouched(Tx(tx.policy, Joined(tx.locks, Needed(tx.policy, e.op, e.answer)), tx.log + [e]))
  {
    var needed := Needed(tx.policy, e.op, e.answer);
    forall d
      ensures Covers(Joined(tx.locks, needed), d) <==>
        exists x :: x in tx.log + [e] && Touches(tx.policy, x.op, x.answer, d)
    {
      NeededIsTouched(tx.policy, e.op, e.answer, d);
      assert Covers(Joined(tx.locks, needed), d) <==> Covers(tx.locks, d) || Covers(needed, d);
      assert e in tx.log + [e];
      assert forall x :: x in tx.log + [e] <==> x in tx.log || x == e;
    }
  }

  lemma {:induction false} StepHolds(s: Store, q: Request)
    requires AllHold(s)
    ensures AllHold(Step(s, q).store)
  {
    if q.Access? && q.tx in s.live {
      LockedByOneMore(s.live[q.tx], Entry(q.op, AnswerOf(q.op, Sight(s, q.tx))));
    }
  }

  lemma {:induction false} RunHolds(s: Store, qs: seq<Request>)
    requires AllHold(s)
    ensures AllHold(Run(s, qs))
    decreases |qs|
  {
    if qs != [] {
      StepHolds(s, qs[0]);
      RunHolds(Step(s, qs[0]).store, qs[1..]);
    }
  }

  // Transaction k has touched something that the operation, so answered, touches for h.
  ghost predicate Conflicts(s: Store, h: nat, op: Op, answer: Answer, k: nat)
    requires h in s.live && k in s.live
  {
    exists d, e ::
      e in s.live[k].log && Touches(s.live[k].policy, e.op, e.answer, d) && Touches(s.live[h].policy, op, answer, d)
  }

  // In every reachable state a request is refused with ObjectLocked, and changes nothing, if and only if another open
  // transaction has touched what it touches.  Otherwise it is answered by the transaction's sight, and its code is the
  // refusal's or Ok.
  lemma {:induction false} EveryAccess(t0: Tree, qs: seq<Request>, h: nat, op: Op)
    requires h in Run(Start(t0), qs).live
    ensures var s := Run(Start(t0), qs); var r := Step(s, Access(h, op)); var a := AnswerOf(op, Sight(s, h));
      if exists k :: k in s.live && k != h && Conflicts(s, h, op, a, k) then
        r == Reply(s, ObjectLocked, Refused(ObjectLocked))
      else r.answer == a && r.code == (if a.Refused? then a.code else Ok) && r.code != ObjectLocked
  {
    var s := Run(Start(t0), qs);
    var a := AnswerOf(op, Sight(s, h));
    var needed := Needed(s.live[h].policy, op, a);
    RunHolds(Start(t0), qs);
    forall k | k in s.live && k != h ensures Compatible(needed, s.live[k].locks) <==> !Conflicts(s, h, op, a, k) {
      CompatibleIff(needed, s.live[k].locks);
      assert HoldsTouched(s.live[k]);
      forall d ensures Covers(needed, d) <==> Touches(s.live[h].policy, op, a, d) {
        NeededIsTouched(s.live[h].policy, op, a, d);
      }
    }
    AnswersMean(op, Sight(s, h));
  }

  // A request on a transaction that is not open is answered NotExist and changes nothing.
  lemma {:induction false} NotOpen(s: Store, q: Request)
    requires !q.Begin? && q.tx !in s.live
    ensures Step(s, q) == Reply(s, NotExist, Refused(NotExist))
  {
  }

  // Commit and abort end the transaction, and so free what it held; nobody else's state changes.
  lemma {:induction false} EndFrees(s: Store, h: nat)
    requires h in s.live
    ensures forall q <- [Commit(h), Abort(h)] :: var r := Step(s, q); r.code == Ok && r.store.live == s.live - {h}
    ensures Step(s, Abort(h)).store.committed == s.committed
    ensures Step(s, Commit(h)).store.committed == Sight(s, h)
  {
  }

  // ------------------------------------------------------------------ reading one's own writes

  // What it has locked, no other transaction can refuse it.
  lemma {:induction false} OwnLocksAreFree(t0: Tree, s: Store, h: nat, needed: Locks)
    requires Consistent(t0, s) && h in s.live && forall d :: Covers(needed, d) ==> Covers(s.live[h].locks, d)
    ensures Free(s, h, needed)
  {
    forall k | k in s.live && k != h ensures Compatible(needed, s.live[k].locks) {
      CompatibleIff(needed, s.live[k].locks);
      CompatibleIff(s.live[h].locks, s.live[k].locks);
    }
  }

  // After an accepted write the transaction sees it, and it holds what it touched.
  lemma {:induction false} WriteIsSeen(s: Store, h: nat, op: Op)
    requires h in s.live && IsWrite(op) && Step(s, Access(h, op)).code == Ok
    ensures var t := Step(s, Access(h, op)).store;
      && AnswerOf(op, Sight(s, h)) == Done
      && h in t.live && Sight(t, h) == Exec(op, Sight(s, h)).tree
      && forall d :: Touches(LockWrite, op, Done, d) ==> Covers(t.live[h].locks, d)
  {
    var t := Step(s, Access(h, op)).store;
    var log := s.live[h].log;
    AnswersMean(op, Sight(s, h));
    assert (log + [Entry(op, Done)])[..|log|] == log;
    assert t.live[h].log == log + [Entry(op, Done)];
    ReplaySnoc(s.committed, Effects(log), op);
    forall d | Touches(LockWrite, op, Done, d) ensures Covers(t.live[h].locks, d) {
      NeededIsTouched(s.live[h].policy, op, Done, d);
      assert Includes(t.live[h].locks, Needed(s.live[h].policy, op, Done));
      IncludesCovers(t.live[h].locks, Needed(s.live[h].policy, op, Done), d);
    }
  }

  lemma {:induction false} OwnReadIsServed(t0: Tree, s: Store, h: nat, op: Op)
    requires Consistent(t0, s) && h in s.live && !IsWrite(op) && (op.Get? || op.Exists?)
    requires Covers(s.live[h].locks, op.dn)
    ensures Step(s, Access(h, op)).answer == AnswerOf(op, Sight(s, h))
  {
    var needed := Needed(s.live[h].policy, op, AnswerOf(op, Sight(s, h)));
    forall d | Covers(needed, d) ensures d == op.dn {
      NeededIsTouched(s.live[h].policy, op, AnswerOf(op, Sight(s, h)), d);
    }
    OwnLocksAreFree(t0, s, h, needed);
  }

  // What d reads as after the write op on the tree mine, where op touches d: nothing if deleted; else the value set, or
  // the initial value, or what it was.
  function Rewritten(mine: Tree, op: Op, d: Dn, name: string): Option<Value> {
    match op
    case Set(_, attrs) =>
      if d !in mine then None
      else if LastFor(attrs, name).Some? then LastFor(attrs, name) else Some(ValueIn(mine[d], name))
    case Create(p, moc, keyName, key, initial) =>
      if d != ChildDn(p, moc, key) then (if d in mine then Some(ValueIn(mine[d], name)) else None)
      else if name == keyName then Some([key])
      else if LastFor(initial, name).Some? then LastFor(initial, name) else Some([])
    case _ => None
  }

  lemma {:induction false} RewrittenIs(mine: Tree, op: Op, d: Dn, name: string)
    requires IsWrite(op) && AnswerOf(op, mine) == Done && Touches(LockWrite, op, Done, d)
    ensures var after := Exec(op, mine).tree; var read := Rewritten(mine, op, d, name);
      (d in after <==> read.Some?) && (d in after ==> ValueIn(after[d], name) == read.value)
  {
    ValuesAfterWrite(op, mine, name);
    WritesAreExact(op, mine, d);
    AnswersMean(op, mine);
  }

  lemma {:induction false} ReadOne(t: Tree, d: Dn, name: string)
    ensures AnswerOf(Get(d, [name]), t) == if d in t then Values([ValueIn(t[d], name)]) else Refused(NotExist)
    ensures AnswerOf(Exists(d), t) == Found(d in t)
  {
    AnswersMean(Get(d, [name]), t);
    AnswersMean(Exists(d), t);
  }

  lemma {:induction false} OwnReads(t0: Tree, s: Store, h: nat, d: Dn, name: string)
    requires Consistent(t0, s) && h in s.live && Covers(s.live[h].locks, d)
    ensures var t := Sight(s, h);
      && Step(s, Access(h, Exists(d))).answer == Found(d in t)
      && Step(s, Access(h, Get(d, [name]))).answer ==
           if d in t then Values([ValueIn(t[d], name)]) else Refused(NotExist)
  {
    OwnReadIsServed(t0, s, h, Exists(d));
    OwnReadIsServed(t0, s, h, Get(d, [name]));
    ReadOne(Sight(s, h), d, name);
  }

  // The same, in any consistent state.
  lemma {:induction false} OwnWriteIsRead(t0: Tree, s: Store, t: Store, h: nat, op: Op, d: Dn, name: string)
    requires Consistent(t0, t) && h in s.live && h in t.live && Covers(t.live[h].locks, d)
    requires IsWrite(op) && AnswerOf(op, Sight(s, h)) == Done && Sight(t, h) == Exec(op, Sight(s, h)).tree
    requires Touches(LockWrite, op, Done, d)
    ensures var read := Rewritten(Sight(s, h), op, d, name);
      && Step(t, Access(h, Exists(d))).answer == Found(read.Some?)
      && Step(t, Access(h, Get(d, [name]))).answer == if read.Some? then Values([read.value]) else Refused(NotExist)
  {
    OwnReads(t0, t, h, d, name);
    RewrittenIs(Sight(s, h), op, d, name);
  }

  // In every reachable state a transaction that has written reads at once what it wrote, under either policy, and no
  // lock of others refuses it.
  lemma {:induction false} ReadsOwnWrites(t0: Tree, qs: seq<Request>, h: nat, op: Op, d: Dn, name: string)
    requires var s := Run(Start(t0), qs); h in s.live && IsWrite(op) && Step(s, Access(h, op)).code == Ok
    requires Touches(LockWrite, op, Done, d)
    ensures var s := Run(Start(t0), qs); var t := Step(s, Access(h, op)).store;
      var read := Rewritten(Sight(s, h), op, d, name);
      && Step(t, Access(h, Exists(d))).answer == Found(read.Some?)
      && Step(t, Access(h, Get(d, [name]))).answer == if read.Some? then Values([read.value]) else Refused(NotExist)
  {
    var s := Run(Start(t0), qs);
    var t := Step(s, Access(h, op)).store;
    RunKeeps(t0, Start(t0), qs);
    StepKeeps(t0, s, Access(h, op));
    WriteIsSeen(s, h, op);
    OwnWriteIsRead(t0, s, t, h, op, d, name);
  }
}
