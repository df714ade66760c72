/**
 Many transactions over one managed-object store, under the two lock policies.

 The specification is a value machine.  A transaction is a log of operations and the answers they were
 given; it sees its own writes replayed over the committed tree, and commit installs them.  The main
 result: in every interleaving, the answers given to committed ComLockReadWrite transactions, and the
 final tree, are those of running the committed transactions one after the other in commit order.
*/
module Serializability {
  import opened Common
  import opened ManagedObjects

  // Single MOs and whole subtrees.
  datatype Locks = Locks(ones: set<Dn>, trees: set<Dn>)

  const FREE := Locks({}, {})

  predicate Covers(l: Locks, d: Dn) {
    d in l.ones || exists t :: t in l.trees && t <= d
  }

  predicate Includes(l: Locks, m: Locks) {
    m.ones <= l.ones && m.trees <= l.trees
  }

  function Joined(l: Locks, m: Locks): Locks {
    Locks(l.ones + m.ones, l.trees + m.trees)
  }

  // No MO can be covered by both.
  predicate Compatible(l: Locks, m: Locks) {
    && (forall d <- l.ones :: !Covers(m, d))
    && (forall d <- m.ones :: !Covers(l, d))
    && (forall x <- l.trees, y <- m.trees :: !(x <= y) && !(y <= x))
  }

  lemma {:induction false} CompatibleMeans(l: Locks, m: Locks, d: Dn)
    requires Compatible(l, m)
    ensures !(Covers(l, d) && Covers(m, d))
  {
    if Covers(l, d) && Covers(m, d) {
      if d !in l.ones && d !in m.ones {
        var x :| x in l.trees && x <= d;
        var y :| y in m.trees && y <= d;
        PrefixesCompare(x, y, d);
      }
      assert false;
    }
  }

  // Two sets of locks are compatible if and only if no MO is covered by both.
  lemma {:induction false} CompatibleIff(l: Locks, m: Locks)
    ensures Compatible(l, m) <==> forall d :: !(Covers(l, d) && Covers(m, d))
  {
    if Compatible(l, m) {
      forall d ensures !(Covers(l, d) && Covers(m, d)) {
        CompatibleMeans(l, m, d);
      }
    } else if x, y :| x in l.trees && y in m.trees && (x <= y || y <= x) {
      var d := if x <= y then y else x;
      assert d <= d && x <= d && y <= d;
      assert Covers(l, d) && Covers(m, d);
    } else {
      assert exists d :: (d in l.ones && Covers(m, d)) || (d in m.ones && Covers(l, d));
    }
  }

  // Every MO the operation reads or changes; for children, the parent and each child found.
  function Footprint(op: Op, answer: Answer): Locks {
    match op
    case Set(d, _) => Locks({d}, {})
    case Create(p, moc, _, key, _) => Locks({p, ChildDn(p, moc, key)}, {})
    case Delete(d) => Locks({}, {d})
    case Get(d, _) => Locks({d}, {})
    case Exists(d) => Locks({d}, {})
    case Children(p, moc) =>
      Locks({p} + if answer.Keys? then set k | k in answer.keys :: ChildDn(p, moc, k) else {}, {})
  }

  predicate Locked(policy: LockPolicy, op: Op) {
    policy == LockReadWrite || IsWrite(op)
  }

  function Needed(policy: LockPolicy, op: Op, answer: Answer): Locks {
    if Locked(policy, op) then Footprint(op, answer) else FREE
  }

  // ------------------------------------------------------------------ the machine

  datatype Entry = Entry(op: Op, answer: Answer)

  datatype Tx = Tx(policy: LockPolicy, locks: Locks, log: seq<Entry>)

  // history is every committed transaction, in commit order.
  datatype Store = Store(committed: Tree, live: map<nat, Tx>, next: nat, history: seq<Tx>)

  datatype Request =
    | Begin(policy: LockPolicy)
    | Access(tx: nat, op: Op)
    | Commit(tx: nat)
    | Abort(tx: nat)

  datatype Reply = Reply(store: Store, code: ReturnCode, answer: Answer)

  // The tree after a log of operations, each served by Exec.
  function After(t: Tree, log: seq<Entry>): Tree
    decreases |log|
  {
    if log == [] then t else After(Exec(log[0].op, t).tree, log[1..])
  }

  function Effects(log: seq<Entry>): seq<Op> {
    if log == [] then []
    else
      var last := log[|log| - 1];
      Effects(log[..|log| - 1]) + if IsWrite(last.op) && last.answer == Done then [last.op] else []
  }

  // What a transaction sees: the writes it was allowed, over what is committed now.
  function Sight(s: Store, h: nat): Tree
    requires h in s.live
  {
    Replay(s.committed, Effects(s.live[h].log))
  }

  predicate Free(s: Store, h: nat, needed: Locks) {
    forall k <- s.live :: k != h ==> Compatible(needed, s.live[k].locks)
  }

  function Serve(s: Store, h: nat, op: Op): Reply
    requires h in s.live
  {
    var tx := s.live[h];
    var answer := AnswerOf(op, Sight(s, h));
    var needed := Needed(tx.policy, op, answer);
    if !Free(s, h, needed) then Reply(s, ObjectLocked, Refused(ObjectLocked))
    else
      Reply(s.(live := s.live[h := Tx(tx.policy, Joined(tx.locks, needed), tx.log + [Entry(op, answer)])]),
            if answer.Refused? then answer.code else Ok, answer)
  }

  function Step(s: Store, q: Request): Reply {
    match q
    case Begin(policy) =>
      Reply(s.(live := s.live[s.next := Tx(policy, FREE, [])], next := s.next + 1), Ok, Done)
    case Access(h, op) =>
      if h !in s.live then Reply(s, NotExist, Refused(NotExist)) else Serve(s, h, op)
    case Commit(h) =>
      if h !in s.live then Reply(s, NotExist, Refused(NotExist))
      else Reply(Store(Sight(s, h), s.live - {h}, s.next, s.history + [s.live[h]]), Ok, Done)
    case Abort(h) =>
      if h !in s.live then Reply(s, NotExist, Refused(NotExist))
      else Reply(s.(live := s.live - {h}), Ok, Done)
  }

  function Run(s: Store, qs: seq<Request>): Store
    decreases |qs|
  {
    if qs == [] then s else Run(Step(s, qs[0]).store, qs[1..])
  }

  function Start(t: Tree): Store {
    Store(t, map[], 0, [])
  }

  // ------------------------------------------------------------------ serial meaning

  // Run alone from t, the transaction would be given the answers it was given, as far as its policy locks.
  ghost predicate Explains(t: Tree, policy: LockPolicy, log: seq<Entry>)
    decreases |log|
  {
    log == [] ||
    (var e := log[0];
     (Locked(policy, e.op) ==> AnswerOf(e.op, t) == e.answer) && Explains(Exec(e.op, t).tree, policy, log[1..]))
  }

  // Run one after the other from t, all of them would.
  ghost predicate SerialOk(t: Tree, history: seq<Tx>)
    decreases |history|
  {
    history == [] ||
    (Explains(t, history[0].policy, history[0].log) && SerialOk(After(t, history[0].log), history[1..]))
  }

  function SerialTree(t: Tree, history: seq<Tx>): Tree
    decreases |history|
  {
    if history == [] then t else SerialTree(After(t, history[0].log), history[1..])
  }

  lemma {:induction false} SerialSnoc(t: Tree, history: seq<Tx>, tx: Tx)
    ensures SerialTree(t, history + [tx]) == After(SerialTree(t, history), tx.log)
    ensures SerialOk(t, history + [tx]) <==>
      SerialOk(t, history) && Explains(SerialTree(t, history), tx.policy, tx.log)
    decreases |history|
  {
    if history == [] {
      assert [] + [tx] == [tx];
      assert After(After(t, tx.log), []) == After(t, tx.log);
    } else {
      assert (history + [tx])[1..] == history[1..] + [tx];
      SerialSnoc(After(t, history[0].log), history[1..], tx);
    }
  }

  lemma {:induction false} ExplainsSnoc(t: Tree, policy: LockPolicy, log: seq<Entry>, e: Entry)
    ensures After(t, log + [e]) == Exec(e.op, After(t, log)).tree
    ensures Explains(t, policy, log + [e]) <==>
      Explains(t, policy, log) && (Locked(policy, e.op) ==> AnswerOf(e.op, After(t, log)) == e.answer)
    decreases |log|
  {
    if log == [] {
      assert [] + [e] == [e];
    } else {
      assert (log + [e])[1..] == log[1..] + [e];
      ExplainsSnoc(Exec(log[0].op, t).tree, policy, log[1..], e);
    }
  }

  // Replaying the writes that were accepted is running the whole log.
  lemma {:induction false} EffectsAreTheLog(t: Tree, policy: LockPolicy, log: seq<Entry>)
    requires Explains(t, policy, log)
    ensures Replay(t, Effects(log)) == After(t, log)
    decreases |log|
  {
    if log != [] {
      var n := |log| - 1;
      var e := log[n];
      assert log == log[..n] + [e];
      ExplainsSnoc(t, policy, log[..n], e);
      EffectsAreTheLog(t, policy, log[..n]);
      if IsWrite(e.op) && e.answer == Done {
        ReplaySnoc(t, Effects(log[..n]), e.op);
      } else {
        assert Effects(log[..n]) + [] == Effects(log[..n]);
      }
    }
  }

  // ------------------------------------------------------------------ what locks protect

  // From t to u nothing covered by l has changed and no MO has appeared below a parent it covers.
  ghost predicate Untouched(l: Locks, t: Tree, u: Tree) {
    && (forall d :: Covers(l, d) ==> At(t, d) == At(u, d))
    && (forall d <- u :: d !in t ==> d != [] && !Covers(l, ParentOf(d)))
  }

  ghost predicate Held(l: Locks, policy: LockPolicy, log: seq<Entry>) {
    forall e <- log :: Includes(l, Needed(policy, e.op, e.answer))
  }

  lemma {:induction false} IncludesCovers(l: Locks, m: Locks, d: Dn)
    requires Includes(l, m) && Covers(m, d)
    ensures Covers(l, d)
  {
  }

  // Another transaction's write leaves what l covers untouched.
  lemma {:induction false} OthersWriteElsewhere(l: Locks, t: Tree, op: Op)
    requires IsWrite(op) && Compatible(l, Footprint(op, Done))
    ensures Untouched(l, t, Apply(op, t))
  {
    var fp := Footprint(op, Done);
    forall d | Covers(l, d) ensures At(t, d) == At(Apply(op, t), d) {
      CompatibleMeans(l, fp, d);
      assert op.Delete? ==> op.dn in fp.trees;
    }
    if op.Create? {
      var c := ChildDn(op.parent, op.moc, op.key);
      assert ParentOf(c) == op.parent;
      CompatibleMeans(l, fp, op.parent);
    }
  }

  lemma {:induction false} UntouchedChains(l: Locks, t: Tree, u: Tree, v: Tree)
    requires Untouched(l, t, u) && Untouched(l, u, v)
    ensures Untouched(l, t, v)
  {
  }

  lemma {:induction false} SameChildren(l: Locks, t: Tree, u: Tree, op: Op)
    requires op.Children? && Untouched(l, t, u) && Includes(l, Footprint(op, AnswerOf(op, t)))
    ensures ChildKeys(u, op.parent, op.moc) == ChildKeys(t, op.parent, op.moc)
  {
    var p, moc := op.parent, op.moc;
    var fp := Footprint(op, AnswerOf(op, t));
    assert p in fp.ones;
    forall k | k in ChildKeys(t, p, moc) ensures k in ChildKeys(u, p, moc) {
      var d := ChildDn(p, moc, k);
      assert d in fp.ones;
      IsChildDn(t, p, moc, k);
      assert At(t, d) == At(u, d);
      IsChildDn(u, p, moc, k);
    }
    forall k | k in ChildKeys(u, p, moc) ensures k in ChildKeys(t, p, moc) {
      var d := ChildDn(p, moc, k);
      IsChildDn(u, p, moc, k);
      assert ParentOf(d) == p;
      IsChildDn(t, p, moc, k);
    }
  }

  lemma {:induction false} IsChildDn(t: Tree, p: Dn, moc: string, k: string)
    ensures k in ChildKeys(t, p, moc) <==> ChildDn(p, moc, k) in t
  {
    var d := ChildDn(p, moc, k);
    assert IsChild(d, p, moc) && d[|p|].key == k;
    if k in ChildKeys(t, p, moc) {
      var x: Dn :| x in t && IsChild(x, p, moc) && x[|p|].key == k;
      assert x == x[..|p|] + [x[|p|]] == d;
    }
  }

  // An operation whose footprint is covered is answered the same in both trees.
  lemma {:induction false} SameAnswer(l: Locks, t: Tree, u: Tree, op: Op)
    requires Untouched(l, t, u) && Includes(l, Footprint(op, AnswerOf(op, t)))
    ensures AnswerOf(op, u) == AnswerOf(op, t)
  {
    match op {
      case Children(_, _) => SameChildren(l, t, u, op);
      case Create(p, moc, _, key, _) =>
        assert p in Footprint(op, Done).ones && ChildDn(p, moc, key) in Footprint(op, Done).ones;
        assert At(t, p) == At(u, p) && At(t, ChildDn(p, moc, key)) == At(u, ChildDn(p, moc, key));
      case Delete(d) =>
        assert d in Footprint(op, Done).trees;
        assert At(t, d) == At(u, d);
      case Set(d, _) => assert At(t, d) == At(u, d);
      case Get(d, _) => assert At(t, d) == At(u, d);
      case Exists(d) => assert At(t, d) == At(u, d);
    }
  }

  lemma {:induction false} SameStep(l: Locks, t: Tree, u: Tree, op: Op)
    requires Untouched(l, t, u) && Includes(l, Footprint(op, AnswerOf(op, t)))
    ensures Untouched(l, Exec(op, t).tree, Exec(op, u).tree)
  {
    SameAnswer(l, t, u, op);
    var t', u' := Exec(op, t).tree, Exec(op, u).tree;
    forall d | Covers(l, d) ensures At(t', d) == At(u', d) {
      ApplyIsPointwise(op, t, d);
      ApplyIsPointwise(op, u, d);
    }
    forall d | d in u' && d !in t' ensures d != [] && !Covers(l, ParentOf(d)) {
      assert d in u;
    }
  }

  // An explanation survives whatever leaves the locks untouched.
  lemma {:induction false} ExplanationSurvives(l: Locks, t: Tree, u: Tree, policy: LockPolicy, log: seq<Entry>)
    requires Untouched(l, t, u) && Held(l, policy, log) && Explains(t, policy, log)
    ensures Explains(u, policy, log)
    decreases |log|
  {
    if log != [] {
      var e := log[0];
      assert e in log;
      if Locked(policy, e.op) {
        SameAnswer(l, t, u, e.op);
        SameStep(l, t, u, e.op);
      }
      ExplanationSurvives(l, Exec(e.op, t).tree, Exec(e.op, u).tree, policy, log[1..]);
    }
  }

  // Everything a transaction writes leaves another transaction's locks untouched.
  lemma {:induction false} EffectsElsewhere(l: Locks, m: Locks, t: Tree, policy: LockPolicy, log: seq<Entry>)
    requires Compatible(l, m) && Held(m, policy, log)
    ensures Untouched(l, t, Replay(t, Effects(log)))
    decreases |log|
  {
    if log != [] {
      var n := |log| - 1;
      var e := log[n];
      assert e in log;
      EffectsElsewhere(l, m, t, policy, log[..n]);
      var u := Replay(t, Effects(log[..n]));
      if IsWrite(e.op) && e.answer == Done {
        ReplaySnoc(t, Effects(log[..n]), e.op);
        CompatibleShrinks(l, m, Footprint(e.op, Done));
        OthersWriteElsewhere(l, u, e.op);
        UntouchedChains(l, t, u, Apply(e.op, u));
      } else {
        assert Effects(log[..n]) + [] == Effects(log[..n]);
      }
    }
  }

  lemma {:induction false} CompatibleShrinks(l: Locks, m: Locks, n: Locks)
    requires Compatible(l, m) && Includes(m, n)
    ensures Compatible(l, n)
  {
    forall d | d in l.ones ensures !Covers(n, d) {
      if Covers(n, d) {
        IncludesCovers(m, n, d);
      }
    }
  }

  // ------------------------------------------------------------------ every step keeps it

  ghost predicate TxOk(s: Store, h: nat)
    requires h in s.live
  {
    var tx := s.live[h];
    h < s.next && Held(tx.locks, tx.policy, tx.log) && Explains(s.committed, tx.policy, tx.log)
  }

  ghost predicate Consistent(t0: Tree, s: Store) {
    && (forall h <- s.live :: TxOk(s, h))
    && (forall h <- s.live, k <- s.live :: h != k ==> Compatible(s.live[h].locks, s.live[k].locks))
    && SerialOk(t0, s.history) && SerialTree(t0, s.history) == s.committed
  }

  lemma {:induction false} CompatibleJoins(l: Locks, m: Locks, n: Locks)
    requires Compatible(l, n) && Compatible(m, n)
    ensures Compatible(Joined(l, m), n) && Compatible(n, Joined(l, m))
  {
    forall d | d in n.ones ensures !Covers(Joined(l, m), d) {
    }
  }

  // The transaction that was served is still explained and holds what its log needs.
  lemma {:induction false} ServedTxOk(s: Store, h: nat, op: Op)
    requires h in s.live && TxOk(s, h)
    ensures h in Serve(s, h, op).store.live && TxOk(Serve(s, h, op).store, h)
  {
    var tx := s.live[h];
    EffectsAreTheLog(s.committed, tx.policy, tx.log);
    ExplainsSnoc(s.committed, tx.policy, tx.log, Entry(op, AnswerOf(op, Sight(s, h))));
  }

  lemma {:induction false} ServeKeeps(t0: Tree, s: Store, h: nat, op: Op)
    requires Consistent(t0, s) && h in s.live
    ensures Consistent(t0, Serve(s, h, op).store)
  {
    var tx := s.live[h];
    var needed := Needed(tx.policy, op, AnswerOf(op, Sight(s, h)));
    var s' := Serve(s, h, op).store;
    ServedTxOk(s, h, op);
    if Free(s, h, needed) {
      forall k | k in s'.live && k != h
        ensures TxOk(s', k)
        ensures Compatible(s'.live[h].locks, s'.live[k].locks) && Compatible(s'.live[k].locks, s'.live[h].locks)
      {
        assert TxOk(s, k);
        CompatibleJoins(tx.locks, needed, s.live[k].locks);
      }
    }
  }

  lemma {:induction false} CommitKeeps(t0: Tree, s: Store, h: nat)
    requires Consistent(t0, s) && h in s.live
    ensures Consistent(t0, Step(s, Commit(h)).store)
  {
    var tx := s.live[h];
    var s' := Step(s, Commit(h)).store;
    assert TxOk(s, h);
    EffectsAreTheLog(s.committed, tx.policy, tx.log);
    SerialSnoc(t0, s.history, tx);
    forall k | k in s'.live ensures TxOk(s', k) {
      assert TxOk(s, k);
      var other := s.live[k];
      EffectsElsewhere(other.locks, tx.locks, s.committed, tx.policy, tx.log);
      ExplanationSurvives(other.locks, s.committed, s'.committed, other.policy, other.log);
    }
  }

  lemma {:induction false} BeginKeeps(t0: Tree, s: Store, policy: LockPolicy)
    requires Consistent(t0, s)
    ensures Consistent(t0, Step(s, Begin(policy)).store)
  {
    var s' := Step(s, Begin(policy)).store;
    forall k | k in s'.live ensures TxOk(s', k) {
      assert k in s.live ==> TxOk(s, k);
    }
    assert s.next !in s.live by {
      assert s.next in s.live ==> TxOk(s, s.next);
    }
  }

  lemma {:induction false} AbortKeeps(t0: Tree, s: Store, h: nat)
    requires Consistent(t0, s)
    ensures Consistent(t0, Step(s, Abort(h)).store)
  {
    var s' := Step(s, Abort(h)).store;
    forall k | k in s'.live ensures TxOk(s', k) {
      assert TxOk(s, k);
    }
  }

  lemma {:induction false} StepKeeps(t0: Tree, s: Store, q: Request)
    requires Consistent(t0, s)
    ensures Consistent(t0, Step(s, q).store)
  {
    match q {
      case Access(h, op) =>
        if h in s.live {
          ServeKeeps(t0, s, h, op);
        }
      case Commit(h) =>
        if h in s.live {
          CommitKeeps(t0, s, h);
        }
      case Begin(policy) => BeginKeeps(t0, s, policy);
      case Abort(h) => AbortKeeps(t0, s, h);
    }
  }

  lemma {:induction false} RunKeeps(t0: Tree, s: Store, qs: seq<Request>)
    requires Consistent(t0, s)
    ensures Consistent(t0, Run(s, qs))
    decreases |qs|
  {
    if qs != [] {
      StepKeeps(t0, s, qs[0]);
      RunKeeps(t0, Step(s, qs[0]).store, qs[1..]);
    }
  }

  // ------------------------------------------------------------------ the main results

  // Every interleaving is serial in commit order.
  lemma {:induction false} Serializable(t0: Tree, qs: seq<Request>)
    ensures var s := Run(Start(t0), qs);
      SerialOk(t0, s.history) && SerialTree(t0, s.history) == s.committed
  {
    RunKeeps(t0, Start(t0), qs);
  }

  // The operations on h that were served, with the answers the caller got.
  function GivenNow(s: Store, q: Request, h: nat): seq<Entry> {
    var r := Step(s, q);
    if q.Access? && q.tx == h && h in s.live && r.code != ObjectLocked then [Entry(q.op, r.answer)] else []
  }

  function Given(s: Store, qs: seq<Request>, h: nat): seq<Entry>
    decreases |qs|
  {
    if qs == [] then [] else GivenNow(s, qs[0], h) + Given(Step(s, qs[0]).store, qs[1..], h)
  }

  function LogOf(s: Store, h: nat): seq<Entry> {
    if h in s.live then s.live[h].log else []
  }

  ghost predicate HandlesBelow(s: Store) {
    forall h <- s.live :: h < s.next
  }

  lemma {:induction false} GoneStepsOn(s: Store, q: Request, h: nat)
    requires HandlesBelow(s) && h < s.next && h !in s.live
    ensures var t := Step(s, q).store;
      HandlesBelow(t) && h < t.next && h !in t.live && GivenNow(s, q, h) == []
  {
  }

  lemma {:induction false} EndedStaysEnded(s: Store, qs: seq<Request>, h: nat)
    requires HandlesBelow(s) && h < s.next && h !in s.live
    ensures h !in Run(s, qs).live && Given(s, qs, h) == []
    decreases |qs|
  {
    if qs != [] {
      GoneStepsOn(s, qs[0], h);
      EndedStaysEnded(Step(s, qs[0]).store, qs[1..], h);
    }
  }

  lemma {:induction false} StepGives(s: Store, q: Request, h: nat)
    requires HandlesBelow(s) && h in Step(s, q).store.live
    ensures LogOf(Step(s, q).store, h) == LogOf(s, h) + GivenNow(s, q, h)
  {
  }

  lemma {:induction false} LogIsWhatWasGiven(s: Store, qs: seq<Request>, h: nat)
    requires HandlesBelow(s) && h in Run(s, qs).live
    ensures Run(s, qs).live[h].log == LogOf(s, h) + Given(s, qs, h)
    decreases |qs|
  {
    if qs != [] {
      var t := Step(s, qs[0]).store;
      if h in t.live {
        LogIsWhatWasGiven(t, qs[1..], h);
        StepGives(s, qs[0], h);
        ConcatAssoc(LogOf(s, h), GivenNow(s, qs[0], h), Given(t, qs[1..], h));
      } else {
        NotYetGiven(s, qs[0], qs[1..], h);
        LogIsWhatWasGiven(t, qs[1..], h);
      }
    }
  }

  // A handle that is live later and not now has not been given out yet.
  lemma {:induction false} NotYetGiven(s: Store, q: Request, qs: seq<Request>, h: nat)
    requires HandlesBelow(s) && h !in Step(s, q).store.live && h in Run(Step(s, q).store, qs).live
    ensures LogOf(s, h) == [] && GivenNow(s, q, h) == []
  {
    if h < Step(s, q).store.next {
      EndedStaysEnded(Step(s, q).store, qs, h);
    }
  }

  lemma {:induction false} CommitInstallsTheLog(t0: Tree, s: Store, h: nat)
    requires Consistent(t0, s) && h in s.live
    ensures Sight(s, h) == After(s.committed, s.live[h].log)
  {
    assert TxOk(s, h);
    EffectsAreTheLog(s.committed, s.live[h].policy, s.live[h].log);
  }

  lemma {:induction false} CommitRecords(s: Store, h: nat)
    requires h in s.live
    ensures var c := Step(s, Commit(h)).store; c.history == s.history + [s.live[h]] && c.committed == Sight(s, h)
  {
  }

  // What commit puts into the history, and so what Serializable speaks of, is what the client was answered.
  lemma {:induction false} CommittedLogIsWhatWasGiven(t0: Tree, qs: seq<Request>, h: nat)
    requires h in Run(Start(t0), qs).live
    ensures var s := Run(Start(t0), qs); var c := Step(s, Commit(h)).store;
      && c.history == s.history + [s.live[h]]
      && s.live[h].log == Given(Start(t0), qs, h)
      && c.committed == After(s.committed, s.live[h].log)
  {
    RunKeeps(t0, Start(t0), qs);
    CommitInstallsTheLog(t0, Run(Start(t0), qs), h);
    CommitRecords(Run(Start(t0), qs), h);
    LogIsWhatWasGiven(Start(t0), qs, h);
    assert LogOf(Start(t0), h) == [];
    assert [] + Given(Start(t0), qs, h) == Given(Start(t0), qs, h);
  }

  lemma {:induction false} AfterKeepsClosed(t: Tree, log: seq<Entry>)
    requires PrefixClosed(t)
    ensures PrefixClosed(After(t, log))
    decreases |log|
  {
    if log != [] {
      ExecKeepsClosed(log[0].op, t);
      AfterKeepsClosed(Exec(log[0].op, t).tree, log[1..]);
    }
  }

  lemma {:induction false} SerialKeepsClosed(t: Tree, history: seq<Tx>)
    requires PrefixClosed(t)
    ensures PrefixClosed(SerialTree(t, history))
    decreases |history|
  {
    if history != [] {
      AfterKeepsClosed(t, history[0].log);
      SerialKeepsClosed(After(t, history[0].log), history[1..]);
    }
  }

  // In every reachable state no MO is without its parent, neither committed nor in any transaction's sight.
  lemma {:induction false} AlwaysPrefixClosed(t0: Tree, qs: seq<Request>, h: nat)
    requires PrefixClosed(t0) && h in Run(Start(t0), qs).live
    ensures var s := Run(Start(t0), qs); PrefixClosed(s.committed) && PrefixClosed(Sight(s, h))
  {
    RunKeeps(t0, Start(t0), qs);
    var s := Run(Start(t0), qs);
    SerialKeepsClosed(t0, s.history);
    CommitInstallsTheLog(t0, s, h);
    AfterKeepsClosed(s.committed, s.live[h].log);
  }

  // ------------------------------------------------------------------ reading twice

  lemma {:induction false} ExplainsAt(t: Tree, policy: LockPolicy, log: seq<Entry>, i: nat)
    requires i < |log| && Explains(t, policy, log) && Locked(policy, log[i].op)
    ensures log[i].answer == AnswerOf(log[i].op, After(t, log[..i]))
    decreases |log|
  {
    if i == 0 {
      assert log[..0] == [];
    } else {
      assert log[1..][..i - 1] == log[..i][1..];
      ExplainsAt(Exec(log[0].op, t).tree, policy, log[1..], i - 1);
    }
  }

  lemma {:induction false} ReadsLeaveTheTree(t: Tree, log: seq<Entry>, i: nat, j: nat)
    requires i <= j <= |log| && forall k :: i <= k < j ==> !IsWrite(log[k].op)
    ensures After(t, log[..i]) == After(t, log[..j])
    decreases j
  {
    if i < j {
      ReadsLeaveTheTree(t, log, i, j - 1);
      assert log[..j] == log[..j - 1] + [log[j - 1]];
      ExplainsSnoc(t, LockWrite, log[..j - 1], log[j - 1]);
    }
  }

  // In every run a read/write-locking transaction that repeats a request without writing in between is given
  // the same answer, whatever others commit meanwhile.
  lemma {:induction false} RepeatableReads(t0: Tree, qs: seq<Request>, h: nat, i: nat, j: nat)
    requires h in Run(Start(t0), qs).live
    requires var tx := Run(Start(t0), qs).live[h];
      && tx.policy == LockReadWrite && i < j < |tx.log| && tx.log[i].op == tx.log[j].op
      && forall k :: i <= k < j ==> !IsWrite(tx.log[k].op)
    ensures var tx := Run(Start(t0), qs).live[h]; tx.log[i].answer == tx.log[j].answer
  {
    RunKeeps(t0, Start(t0), qs);
    var s := Run(Start(t0), qs);
    var tx := s.live[h];
    assert TxOk(s, h);
    ExplainsAt(s.committed, tx.policy, tx.log, i);
    ExplainsAt(s.committed, tx.policy, tx.log, j);
    ReadsLeaveTheTree(s.committed, tx.log, i, j);
  }

  // Under ComLockWrite that is not so: reads take no lock and give the last committed data.  A transaction that has
  // written nothing gets the same answer after another commits if and only if the other saw that answer too.
  lemma {:induction false} UnlockedReadsFollowCommits(s: Store, h: nat, k: nat, op: Op)
    requires h in s.live && k in s.live && h != k && !IsWrite(op)
    requires s.live[h].policy == LockWrite && Effects(s.live[h].log) == []
    ensures var before := Step(s, Access(h, op));
      var after := Step(Step(before.store, Commit(k)).store, Access(h, op));
      before.answer == after.answer <==> AnswerOf(op, s.committed) == AnswerOf(op, Sight(s, k))
  {
    var before := Step(s, Access(h, op));
    UnlockedRead(s, h, op);
    var t := Step(before.store, Commit(k)).store;
    OtherCommits(before.store, h, k);
    UnlockedRead(t, h, op);
  }

  lemma {:induction false} OtherCommits(s: Store, h: nat, k: nat)
    requires h in s.live && k in s.live && h != k
    ensures var t := Step(s, Commit(k)).store;
      h in t.live && t.live[h] == s.live[h] && t.committed == Replay(s.committed, Effects(s.live[k].log))
  {
  }

  // An unlocked read of a transaction that has written nothing: the committed data, and it still has written nothing.
  lemma {:induction false} UnlockedRead(s: Store, h: nat, op: Op)
    requires h in s.live && !IsWrite(op)
    requires s.live[h].policy == LockWrite && Effects(s.live[h].log) == []
    ensures var r := Step(s, Access(h, op));
      && r.answer == AnswerOf(op, s.committed)
      && h in r.store.live && r.store.live[h].policy == LockWrite && Effects(r.store.live[h].log) == []
      && r.store.committed == s.committed
      && forall k :: k in s.live && k != h ==> k in r.store.live && r.store.live[k] == s.live[k]
  {
    var log := s.live[h].log;
    var e := Entry(op, AnswerOf(op, s.committed));
    ReadHasNoEffect(log, e);
    assert Compatible(FREE, FREE) && Free(s, h, FREE);
    assert Sight(s, h) == s.committed;
    var after := Serve(s, h, op).store;
    assert after.live == s.live[h := Tx(LockWrite, Joined(s.live[h].locks, FREE), log + [e])];
  }

  lemma {:induction false} ReadHasNoEffect(log: seq<Entry>, e: Entry)
    requires !IsWrite(e.op)
    ensures Effects(log + [e]) == Effects(log)
  {
    assert (log + [e])[..|log|] == log;
    assert Effects(log) + [] == Effects(log);
  }

  // And such a transaction is reached: one that creates an MO while the other is open.
  lemma {:induction false} UnlockedReadsMove(t0: Tree, key: string)
    requires ChildDn([], "ManagedElement", key) !in t0
    ensures var d := ChildDn([], "ManagedElement", key);
      var s := Run(Start(t0), [Begin(LockWrite), Begin(LockReadWrite),
                               Access(1, Create([], "ManagedElement", "id", key, []))]);
      && 0 in s.live && 1 in s.live && s.live[0].policy == LockWrite && Effects(s.live[0].log) == []
      && AnswerOf(Exists(d), s.committed) != AnswerOf(Exists(d), Sight(s, 1))
  {
    var create := Create([], "ManagedElement", "id", key, []);
    var qs := [Begin(LockWrite), Begin(LockReadWrite), Access(1, create)];
    var two := Store(t0, map[0 := Tx(LockWrite, FREE, []), 1 := Tx(LockReadWrite, FREE, [])], 2, []);
    assert qs[1..] == [qs[1], qs[2]] && qs[1..][1..] == [qs[2]] && [qs[2]][1..] == [];
    assert Step(Step(Start(t0), qs[0]).store, qs[1]).store == two;
    assert Run(Start(t0), qs) == Run(two, [qs[2]]) == Step(two, qs[2]).store;
    var s := Step(two, qs[2]).store;
    assert Sight(two, 1) == t0;
    assert s.live[1].log == [Entry(create, Done)];
    CreatesOne(t0, create);
  }

  lemma {:induction false} CreatesOne(t: Tree, create: Op)
    requires create.Create?
    ensures Replay(t, Effects([Entry(create, Done)])) == Apply(create, t)
  {
    var log := [Entry(create, Done)];
    assert log[..0] == [];
    assert Effects(log) == [] + [create] == [create];
    assert [create][1..] == [];
  }

  // A read under ComLockWrite is never refused for a lock.
  lemma {:induction false} UnlockedReadsPass(s: Store, h: nat, op: Op)
    requires h in s.live && s.live[h].policy == LockWrite && !IsWrite(op)
    ensures Step(s, Access(h, op)).answer == AnswerOf(op, Sight(s, h))
  {
  }

  // A request is refused for a lock if and only if some MO it needs is covered by another transaction's locks; and
  // then nothing changes.
  lemma {:induction false} RefusedIffCovered(s: Store, h: nat, op: Op)
    requires h in s.live
    ensures var needed := Needed(s.live[h].policy, op, AnswerOf(op, Sight(s, h)));
      var r := Step(s, Access(h, op));
      (r == Reply(s, ObjectLocked, Refused(ObjectLocked))) <==>
        exists k, d :: k in s.live && k != h && Covers(needed, d) && Covers(s.live[k].locks, d)
  {
    var needed := Needed(s.live[h].policy, op, AnswerOf(op, Sight(s, h)));
    forall k | k in s.live && k != h
      ensures Compatible(needed, s.live[k].locks) <==> forall d :: !(Covers(needed, d) && Covers(s.live[k].locks, d))
    {
      CompatibleIff(needed, s.live[k].locks);
    }
    if Free(s, h, needed) {
      assert |Step(s, Access(h, op)).store.live[h].log| == |s.live[h].log| + 1;
    }
  }

  // ------------------------------------------------------------------ isolation

  ghost predicate Commits(qs: seq<Request>) {
    exists q :: q in qs && q.Commit?
  }

  ghost predicate Names(qs: seq<Request>, h: nat) {
    exists q :: q in qs && !q.Begin? && q.tx == h
  }

  // Whatever other transactions do short of committing, one transaction sees the same tree, and what is committed
  // stays.
  lemma {:induction false} UncommittedWorkIsInvisible(s: Store, qs: seq<Request>, h: nat)
    requires HandlesBelow(s) && h in s.live && !Commits(qs) && !Names(qs, h)
    ensures var t := Run(s, qs);
      && h in t.live && t.live[h] == s.live[h] && Sight(t, h) == Sight(s, h)
      && t.committed == s.committed && t.history == s.history
    decreases |qs|
  {
    if qs != [] {
      assert qs[0] in qs;
      assert !qs[0].Commit? && (qs[0].Begin? || qs[0].tx != h);
      assert forall q :: q in qs[1..] ==> q in qs;
      UncommittedWorkIsInvisible(Step(s, qs[0]).store, qs[1..], h);
    }
  }

  // A transaction that does anything and then aborts has changed nothing but its own existence.
  lemma {:induction false} AbortUndoesAll(s: Store, ops: seq<Op>, h: nat)
    requires h in s.live
    ensures Run(s, seq(|ops|, i requires 0 <= i < |ops| => Access(h, ops[i])) + [Abort(h)])
         == Step(s, Abort(h)).store
    decreases |ops|
  {
    var qs := seq(|ops|, i requires 0 <= i < |ops| => Access(h, ops[i])) + [Abort(h)];
    if ops == [] {
      assert qs == [Abort(h)];
    } else {
      var rest := seq(|ops| - 1, i requires 0 <= i < |ops| - 1 => Access(h, ops[1..][i])) + [Abort(h)];
      assert qs[1..] == rest;
      AbortUndoesAll(Step(s, qs[0]).store, ops[1..], h);
      assert Step(s, qs[0]).store.live - {h} == s.live - {h};
    }
  }
}
