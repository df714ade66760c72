/**
 The store as it is kept: the committed tree, and for each open transaction an overlay that its writes update
 in place.  Every operation is proved to be one Step of the machine in Serializability, whose transactions
 are logs; so everything proved of the logs holds of the overlays.
*/
module MoStoreModule {
  import opened Common
  import opened ManagedObjects
  import S = Serializability

  datatype Work = Work(policy: LockPolicy, locks: S.Locks, overlay: Overlay)

  // Keys still to be handed out by one MO iterator.
  datatype Cursor = Cursor(tx: nat, parent: Dn, moc: string, rest: seq<string>)

  // What nextMo gives: the first remaining key whose MO is still there, and what remains after it.
  datatype Advance = Advance(key: Option<string>, rest: seq<string>)

  function Next(t: Tree, parent: Dn, moc: string, rest: seq<string>): Advance {
    if rest == [] then Advance(None, [])
    else if ChildDn(parent, moc, rest[0]) in t then Advance(Some(rest[0]), rest[1..])
    else Next(t, parent, moc, rest[1..])
  }

  // A key is handed out only while its MO exists, and only keys whose MO is gone are passed over.
  lemma {:induction false} NextSkipsOnlyTheDeleted(t: Tree, parent: Dn, moc: string, rest: seq<string>)
    ensures var a := Next(t, parent, moc, rest);
      && (a.key.Some? ==> a.key.value in rest && ChildDn(parent, moc, a.key.value) in t)
      && (forall k :: k in rest && k !in a.rest && a.key != Some(k) ==> ChildDn(parent, moc, k) !in t)
      && |a.rest| <= |rest| && rest[|rest| - |a.rest|..] == a.rest
  {
    if rest != [] && ChildDn(parent, moc, rest[0]) !in t {
      NextSkipsOnlyTheDeleted(t, parent, moc, rest[1..]);
    }
  }

  lemma {:induction false} BuriedByPrefix(ov: Overlay, d: Dn)
    ensures Buried(ov, d) <==> exists i :: 0 <= i <= |d| && d[..i] in ov.tombs
  {
    if Buried(ov, d) {
      var x :| x in ov.tombs && x <= d;
      assert d[..|x|] == x;
    }
  }

  lemma {:induction false} EffectsGrow(log: seq<S.Entry>, e: S.Entry)
    ensures S.Effects(log + [e]) == S.Effects(log) + if IsWrite(e.op) && e.answer == Done then [e.op] else []
    ensures IsWrite(e.op) && e.answer == Done ==>
      OverlayOf(S.Effects(log + [e])) == Write(OverlayOf(S.Effects(log)), e.op)
    ensures !(IsWrite(e.op) && e.answer == Done) ==> S.Effects(log + [e]) == S.Effects(log)
  {
    assert (log + [e])[..|log|] == log;
    var w := S.Effects(log);
    assert (w + [e.op])[..|w|] == w;
    assert w + [] == w;
  }

  // The in-place state w represents the abstract transaction tx.
  ghost predicate RepresentsTx(w: Work, tx: S.Tx) {
    w.policy == tx.policy && w.locks == tx.locks && w.overlay == OverlayOf(S.Effects(tx.log))
  }

  ghost predicate Represents(live: map<nat, Work>, txs: map<nat, S.Tx>) {
    live.Keys == txs.Keys && forall h <- live :: RepresentsTx(live[h], txs[h])
  }

  lemma {:induction false} RepresentsUpdate(live: map<nat, Work>, txs: map<nat, S.Tx>, h: nat, w: Work, tx: S.Tx)
    requires Represents(live, txs) && RepresentsTx(w, tx)
    ensures Represents(live[h := w], txs[h := tx])
  {
  }

  lemma {:induction false} RepresentsRemoval(live: map<nat, Work>, txs: map<nat, S.Tx>, h: nat)
    requires Represents(live, txs)
    ensures Represents(live - {h}, txs - {h})
  {
  }

  // The work of a transaction after one more operation: more locks and, for an accepted write, its overlay updated.
  function Entered(w: Work, op: Op, answer: Answer): Work {
    Work(w.policy, S.Joined(w.locks, S.Needed(w.policy, op, answer)),
         if IsWrite(op) && answer == Done then Write(w.overlay, op) else w.overlay)
  }

  lemma {:induction false} EnteredRepresents(w: Work, tx: S.Tx, op: Op, answer: Answer)
    requires RepresentsTx(w, tx)
    ensures RepresentsTx(Entered(w, op, answer),
              S.Tx(tx.policy, S.Joined(tx.locks, S.Needed(tx.policy, op, answer)), tx.log + [S.Entry(op, answer)]))
  {
    EffectsGrow(tx.log, S.Entry(op, answer));
  }

  lemma {:induction false} SameKeys(live: map<nat, Work>, h: nat, w: Work)
    requires h in live
    ensures live[h := w].Keys == live.Keys
  {
  }

  // What serving an operation does to the representation.
  lemma {:induction false} ServeRepresents(live: map<nat, Work>, s: S.Store, h: nat, op: Op) returns (after: S.Store)
    requires Represents(live, s.live) && h in live
    requires S.Free(s, h, S.Needed(live[h].policy, op, AnswerOf(op, S.Sight(s, h))))
    ensures after == S.Serve(s, h, op).store
    ensures after.committed == s.committed && after.next == s.next
    ensures Represents(live[h := Entered(live[h], op, AnswerOf(op, S.Sight(s, h)))], after.live)
  {
    var answer := AnswerOf(op, S.Sight(s, h));
    after := S.Serve(s, h, op).store;
    EnteredRepresents(live[h], s.live[h], op, answer);
    RepresentsUpdate(live, s.live, h, Entered(live[h], op, answer), after.live[h]);
  }

  lemma {:induction false} SightIsView(s: S.Store, h: nat, w: Work, d: Dn)
    requires h in s.live && RepresentsTx(w, s.live[h])
    ensures S.Sight(s, h) == View(s.committed, w.overlay)
    ensures At(S.Sight(s, h), d) == Lookup(s.committed, w.overlay, d)
  {
    OverlayRefinesReplay(s.committed, S.Effects(s.live[h].log));
  }

  // A child operation changes nobody's sight.
  lemma {:induction false} ReadKeepsSight(s: S.Store, h: nat, op: Op)
    requires h in s.live && !IsWrite(op)
    ensures var t := S.Step(s, S.Access(h, op)).store; h in t.live && S.Sight(t, h) == S.Sight(s, h)
  {
    S.ReadHasNoEffect(s.live[h].log, S.Entry(op, AnswerOf(op, S.Sight(s, h))));
  }

  lemma {:induction false} ChildHasOneKey(x: Dn, parent: Dn, moc: string)
    requires IsChild(x, parent, moc)
    ensures forall k :: ChildDn(parent, moc, k) == x <==> k == x[|parent|].key
  {
    assert x == x[..|parent|] + [x[|parent|]];
    forall k ensures ChildDn(parent, moc, k)[|parent|].key == k {
    }
  }

  lemma {:induction false} KeysAreChildKeys(t: Tree, parent: Dn, moc: string, keys: set<string>)
    requires forall k :: k in keys <==> ChildDn(parent, moc, k) in t
    ensures keys == ChildKeys(t, parent, moc)
  {
    forall k ensures k in keys <==> k in ChildKeys(t, parent, moc) {
      S.IsChildDn(t, parent, moc, k);
    }
  }

  ghost predicate HandlesOk(live: set<nat>, bound: nat) {
    forall h <- live :: h < bound
  }

  ghost predicate CursorsOk(cursors: map<nat, Cursor>, bound: nat, live: set<nat>) {
    forall c <- cursors :: c < bound && cursors[c].tx in live
  }

  lemma {:induction false} CursorAdded(cursors: map<nat, Cursor>, bound: nat, live: set<nat>, c: Cursor)
    requires CursorsOk(cursors, bound, live) && c.tx in live
    ensures CursorsOk(cursors[bound := c], bound + 1, live)
    ensures bound !in cursors && cursors[bound := c] - {bound} == cursors
  {
    UpdateThenRemove(cursors, bound, c);
  }

  // The iterators of other transactions than h.
  function Kept(cursors: map<nat, Cursor>, h: nat): (kept: map<nat, Cursor>)
    ensures forall c :: c in kept <==> c in cursors && cursors[c].tx != h
    ensures forall c <- kept :: kept[c] == cursors[c]
  {
    map c | c in cursors && cursors[c].tx != h :: cursors[c]
  }

  lemma {:induction false} KeptOk(cursors: map<nat, Cursor>, bound: nat, live: set<nat>, h: nat)
    requires CursorsOk(cursors, bound, live)
    ensures CursorsOk(Kept(cursors, h), bound, live - {h})
    ensures h !in live ==> Kept(cursors, h) == cursors
  {
  }

  // The fields of a store represent the abstract state.
  ghost predicate ValidOf(committed: Tree, live: map<nat, Work>, next: nat, cursors: map<nat, Cursor>,
                          nextCursor: nat, state: S.Store) {
    && committed == state.committed && next == state.next && Represents(live, state.live)
    && HandlesOk(live.Keys, next) && CursorsOk(cursors, nextCursor, live.Keys)
  }

  // Serving an operation whose locks are free, on the fields and on the abstract state.
  lemma {:induction false} EnterValid(committed: Tree, live: map<nat, Work>, next: nat, cursors: map<nat, Cursor>,
                                      nextCursor: nat, state: S.Store, h: nat, op: Op,
                                      answer: Answer) returns (after: S.Store)
    requires ValidOf(committed, live, next, cursors, nextCursor, state)
    requires h in live && answer == AnswerOf(op, S.Sight(state, h))
    requires S.Free(state, h, S.Needed(live[h].policy, op, answer))
    ensures after == S.Serve(state, h, op).store
    ensures ValidOf(committed, live[h := Entered(live[h], op, answer)], next, cursors, nextCursor, after)
    ensures live[h := Entered(live[h], op, answer)].Keys == live.Keys
  {
    after := ServeRepresents(live, state, h, op);
    SameKeys(live, h, Entered(live[h], op, answer));
  }

  // Ending a transaction, on the fields and on the abstract state.
  lemma {:induction false} CommitValid(committed: Tree, live: map<nat, Work>, next: nat, cursors: map<nat, Cursor>,
                                       nextCursor: nat, state: S.Store, h: nat) returns (after: S.Store)
    requires ValidOf(committed, live, next, cursors, nextCursor, state) && h in live
    ensures after == S.Step(state, S.Commit(h)).store && after.committed == View(committed, live[h].overlay)
    ensures ValidOf(after.committed, live - {h}, next, Kept(cursors, h), nextCursor, after)
  {
    after := S.Step(state, S.Commit(h)).store;
    SightIsView(state, h, live[h], []);
    RepresentsRemoval(live, state.live, h);
    KeptOk(cursors, nextCursor, live.Keys, h);
    assert (live - {h}).Keys == live.Keys - {h};
  }

  lemma {:induction false} AbortValid(committed: Tree, live: map<nat, Work>, next: nat, cursors: map<nat, Cursor>,
                                      nextCursor: nat, state: S.Store, h: nat) returns (after: S.Store)
    requires ValidOf(committed, live, next, cursors, nextCursor, state) && h in live
    ensures after == S.Step(state, S.Abort(h)).store && after.committed == committed
    ensures ValidOf(after.committed, live - {h}, next, Kept(cursors, h), nextCursor, after)
  {
    after := S.Step(state, S.Abort(h)).store;
    RepresentsRemoval(live, state.live, h);
    KeptOk(cursors, nextCursor, live.Keys, h);
    assert (live - {h}).Keys == live.Keys - {h};
  }

  // The keys of the children, each once.
  ghost predicate ListsChildren(rest: seq<string>, t: Tree, parent: Dn, moc: string) {
    && NoDup(rest) && |rest| == |ChildKeys(t, parent, moc)|
    && forall k :: k in rest <==> k in ChildKeys(t, parent, moc)
  }

  // The values of the names asked for, in the order asked; no values for an attribute that is not set.
  ghost predicate ReadsInOrder(mo: Mo, names: seq<string>, values: seq<Value>) {
    |values| == |names| &&
    forall i :: 0 <= i < |names| ==> values[i] == if names[i] in mo then mo[names[i]] else []
  }

  // The keys in any order, each once.
  method Listed(keys: set<string>) returns (s: seq<string>)
    ensures NoDup(s) && |s| == |keys|
    ensures forall k :: k in s <==> k in keys
  {
    s := [];
    var todo := keys;
    while todo != {}
      invariant todo <= keys && |s| + |todo| == |keys|
      invariant forall k :: k in s <==> k in keys - todo
      invariant NoDup(s)
      decreases |todo|
    {
      var k :| k in todo;
      assert k !in s;
      todo := todo - {k};
      s := s + [k];
    }
  }

  class MoStore {
    var committed: Tree
    var live: map<nat, Work>
    var next: nat
    var cursors: map<nat, Cursor>
    var nextCursor: nat
    // The abstract state that the fields represent.
    ghost var state: S.Store

    ghost predicate Valid()
      reads this
    {
      ValidOf(committed, live, next, cursors, nextCursor, state)
    }

    constructor (initial: Tree)
      ensures Valid() && state == S.Start(initial)
    {
      committed, live, next, cursors, nextCursor := initial, map[], 0, map[], 0;
      state := S.Start(initial);
    }

    method BeginTx(policy: LockPolicy) returns (h: nat)
      requires Valid()
      modifies this
      ensures Valid() && state == S.Step(old(state), S.Begin(policy)).store
      ensures h == old(next) && next == h + 1 && live == old(live)[h := Work(policy, S.FREE, EMPTY)]
      ensures h !in old(state.live) && state.live == old(state.live)[h := S.Tx(policy, S.FREE, [])]
      ensures state.committed == old(state.committed)
      ensures cursors == old(cursors) && nextCursor == old(nextCursor)
    {
      h := next;
      RepresentsUpdate(live, state.live, h, Work(policy, S.FREE, EMPTY), S.Tx(policy, S.FREE, []));
      live := live[h := Work(policy, S.FREE, EMPTY)];
      next := next + 1;
      state := S.Step(state, S.Begin(policy)).store;
    }

    // Look one MO up through the overlay, walking the DN from the root for a deletion.
    method Find(h: nat, d: Dn) returns (mo: Option<Mo>)
      requires Valid() && h in live
      ensures mo == At(S.Sight(state, h), d)
    {
      var ov := live[h].overlay;
      SightIsView(state, h, live[h], d);
      BuriedByPrefix(ov, d);
      if d in ov.news {
        return Some(ov.news[d]);
      }
      if d !in committed {
        return None;
      }
      for i := 0 to |d| + 1
        invariant forall j :: 0 <= j < i ==> d[..j] !in ov.tombs
      {
        if d[..i] in ov.tombs {
          return None;
        }
      }
      mo := Some(Patched(ov, d, committed[d]));
    }

    method FindChildren(h: nat, parent: Dn, moc: string) returns (keys: set<string>)
      requires Valid() && h in live
      ensures keys == ChildKeys(S.Sight(state, h), parent, moc)
    {
      ghost var sight := S.Sight(state, h);
      SightIsView(state, h, live[h], []);
      var todo := committed.Keys + live[h].overlay.news.Keys;
      keys := {};
      while todo != {}
        invariant forall k :: k in keys <==>
            ChildDn(parent, moc, k) in sight && ChildDn(parent, moc, k) !in todo
        decreases |todo|
      {
        var x: Dn :| x in todo;
        todo := todo - {x};
        if IsChild(x, parent, moc) {
          ChildHasOneKey(x, parent, moc);
          var mo := Find(h, x);
          if mo.Some? {
            keys := keys + {x[|parent|].key};
          }
        }
      }
      KeysAreChildKeys(sight, parent, moc, keys);
    }

    // No other transaction holds anything that is needed.
    method IsFree(h: nat, needed: S.Locks) returns (free: bool)
      requires Valid()
      ensures free <==> S.Free(state, h, needed)
    {
      var todo := live.Keys - {h};
      while todo != {}
        invariant todo <= live.Keys - {h}
        invariant forall k :: k in live && k != h && k !in todo ==> S.Compatible(needed, live[k].locks)
        decreases |todo|
      {
        var k :| k in todo;
        todo := todo - {k};
        if !S.Compatible(needed, live[k].locks) {
          assert k in state.live;
          return false;
        }
      }
      free := true;
    }

    method Replace(h: nat, w: Work, ghost after: S.Store)
      requires ValidOf(committed, live[h := w], next, cursors, nextCursor, after)
      modifies this`live, this`state
      ensures Valid() && live == old(live)[h := w] && state == after
    {
      live := live[h := w];
      state := after;
    }

    // Take the locks the operation needs and, if it is an accepted write, update the overlay in place.
    method Enter(h: nat, op: Op, answer: Answer)
      requires Valid() && h in live && answer == AnswerOf(op, S.Sight(state, h))
      requires S.Free(state, h, S.Needed(live[h].policy, op, answer))
      modifies this`live, this`state
      ensures Valid() && state == S.Serve(old(state), h, op).store && live.Keys == old(live.Keys)
    {
      ghost var after := EnterValid(committed, live, next, cursors, nextCursor, state, h, op, answer);
      Replace(h, Entered(live[h], op, answer), after);
    }

    // Refused if another transaction holds anything the operation needs.
    method Serve(h: nat, op: Op, answer: Answer) returns (rc: ReturnCode)
      requires Valid() && h in live && answer == AnswerOf(op, S.Sight(state, h))
      modifies this`live, this`state
      ensures Valid() && live.Keys == old(live.Keys)
      ensures var r := S.Serve(old(state), h, op);
        state == r.store && rc == r.code && (rc == Ok ==> r.answer == answer)
    {
      var free := IsFree(h, S.Needed(live[h].policy, op, answer));
      if !free {
        return ObjectLocked;
      }
      Enter(h, op, answer);
      rc := if answer.Refused? then answer.code else Ok;
    }

    // setMoAttribute is the case of one attribute.
    method SetMoAttributes(h: nat, dn: Dn, attrs: seq<Assignment>) returns (rc: ReturnCode)
      requires Valid()
      modifies this`live, this`state
      ensures Valid()
      ensures var r := S.Step(old(state), S.Access(h, Set(dn, attrs))); state == r.store && rc == r.code
    {
      if h !in live {
        return NotExist;
      }
      var mo := Find(h, dn);
      rc := Serve(h, Set(dn, attrs), if mo.Some? then Done else Refused(NotExist));
    }

    method CreateMo(h: nat, parent: Dn, moc: string, keyName: string, key: string, initial: seq<Assignment>)
      returns (rc: ReturnCode)
      requires Valid()
      modifies this`live, this`state
      ensures Valid()
      ensures var r := S.Step(old(state), S.Access(h, Create(parent, moc, keyName, key, initial)));
        state == r.store && rc == r.code
    {
      if h !in live {
        return NotExist;
      }
      var answer := Done;
      if parent != [] {
        var mo := Find(h, parent);
        if mo.None? {
          answer := Refused(NotExist);
        }
      }
      if answer == Done {
        var mo := Find(h, ChildDn(parent, moc, key));
        if mo.Some? {
          answer := Refused(AlreadyExist);
        }
      }
      rc := Serve(h, Create(parent, moc, keyName, key, initial), answer);
    }

    method DeleteMo(h: nat, dn: Dn) returns (rc: ReturnCode)
      requires Valid()
      modifies this`live, this`state
      ensures Valid()
      ensures var r := S.Step(old(state), S.Access(h, Delete(dn))); state == r.store && rc == r.code
    {
      if h !in live {
        return NotExist;
      }
      var mo := Find(h, dn);
      rc := Serve(h, Delete(dn), if mo.Some? then Done else Refused(NotExist));
    }

    // getMoAttribute is the case of one name.
    method GetMoAttributes(h: nat, dn: Dn, names: seq<string>) returns (rc: ReturnCode, values: seq<Value>)
      requires Valid()
      modifies this`live, this`state
      ensures Valid()
      ensures var r := S.Step(old(state), S.Access(h, Get(dn, names)));
        state == r.store && rc == r.code && (rc == Ok ==> r.answer == Values(values))
      ensures rc == Ok ==> h in old(state.live) && dn in S.Sight(old(state), h)
      ensures rc == Ok ==> ReadsInOrder(S.Sight(old(state), h)[dn], names, values)
    {
      values := [];
      if h !in live {
        return NotExist, values;
      }
      var mo := Find(h, dn);
      if mo.Some? {
        values := ReadAll(mo.value, names);
      }
      rc := Serve(h, Get(dn, names), if mo.Some? then Values(values) else Refused(NotExist));
    }

    method ExistsMo(h: nat, dn: Dn) returns (rc: ReturnCode, found: bool)
      requires Valid()
      modifies this`live, this`state
      ensures Valid()
      ensures var r := S.Step(old(state), S.Access(h, Exists(dn)));
        state == r.store && rc == r.code && (rc == Ok ==> r.answer == Found(found))
      ensures rc == Ok ==> h in old(state.live) && (found <==> dn in S.Sight(old(state), h))
    {
      found := false;
      if h !in live {
        return NotExist, found;
      }
      var mo := Find(h, dn);
      found := mo.Some?;
      rc := Serve(h, Exists(dn), Found(found));
    }

    method ServeChildren(h: nat, parent: Dn, moc: string) returns (rc: ReturnCode, keys: set<string>)
      requires Valid()
      modifies this`live, this`state
      ensures Valid()
      ensures var r := S.Step(old(state), S.Access(h, Children(parent, moc)));
        state == r.store && rc == r.code && (rc == Ok ==> r.answer == Keys(keys))
      ensures rc == Ok ==> h in live && keys == ChildKeys(S.Sight(state, h), parent, moc)
    {
      keys := {};
      if h !in live {
        return NotExist, keys;
      }
      keys := FindChildren(h, parent, moc);
      ReadKeepsSight(state, h, Children(parent, moc));
      rc := Serve(h, Children(parent, moc), Keys(keys));
    }

    method OpenCursor(h: nat, parent: Dn, moc: string, rest: seq<string>) returns (it: nat)
      requires Valid() && h in live
      modifies this`cursors, this`nextCursor
      ensures Valid() && it !in old(cursors) && it == old(nextCursor) && nextCursor == it + 1
      ensures it in cursors && cursors - {it} == old(cursors) && cursors[it] == Cursor(h, parent, moc, rest)
    {
      it := nextCursor;
      CursorAdded(cursors, nextCursor, live.Keys, Cursor(h, parent, moc, rest));
      cursors := cursors[it := Cursor(h, parent, moc, rest)];
      nextCursor := nextCursor + 1;
    }

    // The iterator it was made for h and will give the children that h sees now.
    ghost predicate Iterates(it: nat, h: nat, parent: Dn, moc: string)
      reads this
    {
      && it in cursors && h in state.live
      && cursors[it] == Cursor(h, parent, moc, cursors[it].rest)
      && ListsChildren(cursors[it].rest, S.Sight(state, h), parent, moc)
    }

    method NewMoIterator(h: nat, parent: Dn, moc: string) returns (rc: ReturnCode, it: nat)
      requires Valid()
      modifies this
      ensures Valid()
      ensures var r := S.Step(old(state), S.Access(h, Children(parent, moc))); state == r.store && rc == r.code
      ensures rc != Ok ==> cursors == old(cursors) && nextCursor == old(nextCursor)
      ensures rc == Ok ==> it == old(nextCursor) && nextCursor == it + 1
      ensures rc == Ok ==> it !in old(cursors) && cursors - {it} == old(cursors) && Iterates(it, h, parent, moc)
    {
      it := 0;
      var keys;
      rc, keys := ServeChildren(h, parent, moc);
      if rc == Ok {
        var rest := Listed(keys);
        assert ListsChildren(rest, S.Sight(state, h), parent, moc);
        it := OpenCursor(h, parent, moc, rest);
      }
    }

    method NextMo(it: nat) returns (rc: ReturnCode, key: Option<string>)
      requires Valid()
      modifies this`cursors
      ensures Valid()
      ensures rc == (if it in old(cursors) then Ok else NotExist)
      ensures rc != Ok ==> cursors == old(cursors) && key == None
      ensures rc == Ok ==>
                var c := old(cursors)[it];
                var a := Next(S.Sight(state, c.tx), c.parent, c.moc, c.rest);
                key == a.key && cursors == old(cursors)[it := c.(rest := a.rest)]
    {
      key := None;
      if it !in cursors {
        return NotExist, key;
      }
      var c := cursors[it];
      var rest := c.rest;
      ghost var sight := S.Sight(state, c.tx);
      ghost var a := Next(sight, c.parent, c.moc, c.rest);
      while rest != [] && key.None?
        invariant cursors == old(cursors)
        invariant key.Some? ==> a == Advance(key, rest)
        invariant key.None? ==> Next(sight, c.parent, c.moc, rest) == a
        decreases |rest|
      {
        var mo := Find(c.tx, ChildDn(c.parent, c.moc, rest[0]));
        if mo.Some? {
          key := Some(rest[0]);
        }
        rest := rest[1..];
      }
      assert a == Advance(key, rest);
      cursors := cursors[it := c.(rest := rest)];
      rc := Ok;
    }

    method FinalizeMoIterator(it: nat) returns (rc: ReturnCode)
      requires Valid()
      modifies this`cursors
      ensures Valid() && cursors == old(cursors) - {it}
      ensures rc == (if it in old(cursors) then Ok else NotExist)
    {
      rc := if it in cursors then Ok else NotExist;
      cursors := cursors - {it};
    }

    // Draw the iterator to its end: with nothing changed in between it gives all that remained.
    method Drain(it: nat) returns (keys: seq<string>)
      requires Valid() && it in cursors
      requires var c := cursors[it];
        forall k <- c.rest :: ChildDn(c.parent, c.moc, k) in S.Sight(state, c.tx)
      modifies this`cursors
      ensures Valid() && keys == old(cursors)[it].rest
      ensures cursors - {it} == old(cursors) - {it} && it in cursors
    {
      keys := [];
      var done := false;
      ghost var c, others := cursors[it], cursors - {it};
      while !done
        invariant Valid() && it in cursors && cursors - {it} == others
        invariant cursors[it] == c.(rest := cursors[it].rest)
        invariant keys + cursors[it].rest == c.rest && (done ==> cursors[it].rest == [])
        decreases |cursors[it].rest|, !done
      {
        ghost var rest := cursors[it].rest;
        ghost var a := Next(S.Sight(state, c.tx), c.parent, c.moc, rest);
        if rest != [] {
          MoveHead(keys, rest, c.rest);
          assert a == Advance(Some(rest[0]), rest[1..]);
        }
        UpdateThenRemove(cursors, it, c.(rest := a.rest));
        var rc, key := NextMo(it);
        if key.Some? {
          keys := keys + [key.value];
        } else {
          done := true;
        }
      }
    }

    // Iterating to the end with nothing changed in between gives each child key exactly once.
    method IterateMoChildren(h: nat, parent: Dn, moc: string) returns (rc: ReturnCode, keys: seq<string>)
      requires Valid()
      modifies this
      ensures Valid() && cursors == old(cursors) && nextCursor >= old(nextCursor)
      ensures var r := S.Step(old(state), S.Access(h, Children(parent, moc))); state == r.store && rc == r.code
      ensures rc == Ok ==> h in state.live && ListsChildren(keys, S.Sight(state, h), parent, moc)
    {
      keys := [];
      var it;
      rc, it := NewMoIterator(h, parent, moc);
      if rc == Ok {
        ghost var sight := S.Sight(state, h);
        forall k | k in cursors[it].rest ensures ChildDn(parent, moc, k) in sight {
          S.IsChildDn(sight, parent, moc, k);
        }
        keys := Drain(it);
        var _ := FinalizeMoIterator(it);
      }
    }

    method CountMoChildren(h: nat, parent: Dn, moc: string) returns (rc: ReturnCode, count: nat)
      requires Valid()
      modifies this
      ensures Valid() && cursors == old(cursors) && nextCursor >= old(nextCursor)
      ensures var r := S.Step(old(state), S.Access(h, Children(parent, moc))); state == r.store && rc == r.code
      ensures rc == Ok ==> h in state.live && count == |ChildKeys(S.Sight(state, h), parent, moc)|
    {
      var keys;
      rc, keys := IterateMoChildren(h, parent, moc);
      count := |keys|;
    }

    method Remove(h: nat, ghost after: S.Store)
      requires ValidOf(after.committed, live - {h}, next, Kept(cursors, h), nextCursor, after)
      requires after.committed == committed
      modifies this`live, this`cursors, this`state
      ensures Valid() && live == old(live) - {h} && cursors == Kept(old(cursors), h) && state == after
    {
      live := live - {h};
      cursors := Kept(cursors, h);
      state := after;
    }

    // Commit installs the overlay on whatever is committed by now.
    method CommitTx(h: nat) returns (rc: ReturnCode)
      requires Valid()
      modifies this
      ensures Valid()
      ensures var r := S.Step(old(state), S.Commit(h)); state == r.store && rc == r.code
      ensures cursors == Kept(old(cursors), h) && nextCursor == old(nextCursor)
    {
      KeptOk(cursors, nextCursor, live.Keys, h);
      if h !in live {
        return NotExist;
      }
      ghost var after := CommitValid(committed, live, next, cursors, nextCursor, state, h);
      committed := View(committed, live[h].overlay);
      Remove(h, after);
      rc := Ok;
    }

    method AbortTx(h: nat) returns (rc: ReturnCode)
      requires Valid()
      modifies this
      ensures Valid()
      ensures var r := S.Step(old(state), S.Abort(h)); state == r.store && rc == r.code
      ensures cursors == Kept(old(cursors), h) && nextCursor == old(nextCursor)
    {
      KeptOk(cursors, nextCursor, live.Keys, h);
      if h !in live {
        return NotExist;
      }
      ghost var after := AbortValid(committed, live, next, cursors, nextCursor, state, h);
      Remove(h, after);
      rc := Ok;
    }
  }
}
