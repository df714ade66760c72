/**
 The managed-object tree and what one transaction sees of it.

 Exec serves one operation on a plain map; it is the meaning of every operation.  A transaction
 does not copy the tree: it keeps an Overlay of deletions, creations and attribute assignments over the
 committed tree.  The main result here is that the overlay, whatever tree it lies over, shows exactly
 what replaying the transaction's operations on that tree would give.
*/
module ManagedObjects {
  import opened Common

  datatype Rdn = Rdn(moc: string, key: string)
  type Dn = seq<Rdn>

  // An attribute with no values is unset, and an unset attribute reads as no values.
  type Value = seq<string>
  type Mo = map<string, Value>
  type Tree = map<Dn, Mo>

  datatype Assignment = Assignment(name: string, value: Value)

  datatype Op =
    | Set(dn: Dn, attrs: seq<Assignment>)
    | Create(parent: Dn, moc: string, keyName: string, key: string, initial: seq<Assignment>)
    | Delete(dn: Dn)
    | Get(dn: Dn, names: seq<string>)
    | Exists(dn: Dn)
    | Children(parent: Dn, moc: string)

  datatype Answer =
    | Done
    | Refused(code: ReturnCode)
    | Values(values: seq<Value>)
    | Found(found: bool)
    | Keys(keys: set<string>)

  datatype Result = Result(answer: Answer, tree: Tree)

  predicate IsWrite(op: Op) {
    op.Set? || op.Create? || op.Delete?
  }

  function ChildDn(parent: Dn, moc: string, key: string): Dn {
    parent + [Rdn(moc, key)]
  }

  function ParentOf(d: Dn): Dn
    requires d != []
  {
    d[..|d| - 1]
  }

  // Every MO that is not a root has its parent.
  ghost predicate PrefixClosed(t: Tree) {
    forall d <- t :: |d| > 0 && (|d| > 1 ==> ParentOf(d) in t)
  }

  function Assign(mo: Mo, a: Assignment): Mo {
    if a.value == [] then mo - {a.name} else mo[a.name := a.value]
  }

  function AssignAll(mo: Mo, attrs: seq<Assignment>): Mo
    decreases |attrs|
  {
    if attrs == [] then mo else AssignAll(Assign(mo, attrs[0]), attrs[1..])
  }

  function ReadAll(mo: Mo, names: seq<string>): seq<Value> {
    seq(|names|, i requires 0 <= i < |names| => if names[i] in mo then mo[names[i]] else [])
  }

  function NewMo(op: Op): Mo
    requires op.Create?
  {
    AssignAll(map[], op.initial)[op.keyName := [op.key]]
  }

  // The effect of a write, whether or not AnswerOf accepts it.
  function Apply(op: Op, t: Tree): Tree {
    match op
    case Set(d, attrs) => if d in t then t[d := AssignAll(t[d], attrs)] else t
    case Create(p, moc, _, key, _) => t[ChildDn(p, moc, key) := NewMo(op)]
    case Delete(d) => map x | x in t && !(d <= x) :: t[x]
    case _ => t
  }

  predicate IsChild(x: Dn, parent: Dn, moc: string) {
    |x| == |parent| + 1 && parent <= x && x[|parent|].moc == moc
  }

  function ChildKeys(t: Tree, parent: Dn, moc: string): set<string> {
    set x: Dn | x in t && IsChild(x, parent, moc) :: x[|parent|].key
  }

  function AnswerOf(op: Op, t: Tree): Answer {
    match op
    case Set(d, _) => if d in t then Done else Refused(NotExist)
    case Create(p, moc, _, key, _) =>
      if p != [] && p !in t then Refused(NotExist)
      else if ChildDn(p, moc, key) in t then Refused(AlreadyExist)
      else Done
    case Delete(d) => if d in t then Done else Refused(NotExist)
    case Get(d, names) => if d in t then Values(ReadAll(t[d], names)) else Refused(NotExist)
    case Exists(d) => Found(d in t)
    case Children(p, moc) => Keys(ChildKeys(t, p, moc))
  }

  function Exec(op: Op, t: Tree): Result {
    var a := AnswerOf(op, t);
    Result(a, if a == Done then Apply(op, t) else t)
  }

  function Replay(t: Tree, writes: seq<Op>): Tree
    decreases |writes|
  {
    if writes == [] then t else Replay(Apply(writes[0], t), writes[1..])
  }

  lemma {:induction false} ReplaySnoc(t: Tree, writes: seq<Op>, op: Op)
    ensures Replay(t, writes + [op]) == Apply(op, Replay(t, writes))
    decreases |writes|
  {
    if writes != [] {
      assert (writes + [op])[1..] == writes[1..] + [op];
      ReplaySnoc(Apply(writes[0], t), writes[1..], op);
    }
  }

  // ------------------------------------------------------------------ attribute values

  lemma {:induction false} AssignAllConcat(mo: Mo, a: seq<Assignment>, b: seq<Assignment>)
    ensures AssignAll(mo, a + b) == AssignAll(AssignAll(mo, a), b)
    decreases |a|
  {
    if a == [] {
      assert a + b == b;
    } else {
      assert (a + b)[1..] == a[1..] + b;
      AssignAllConcat(Assign(mo, a[0]), a[1..], b);
    }
  }

  function LastFor(attrs: seq<Assignment>, name: string): Option<Value> {
    if attrs == [] then None
    else if attrs[|attrs| - 1].name == name then Some(attrs[|attrs| - 1].value)
    else LastFor(attrs[..|attrs| - 1], name)
  }

  // Setting many attributes at once replaces each named value completely by the last one given for it, and
  // leaves every other attribute alone.
  lemma {:induction false} BulkSetReplaces(mo: Mo, attrs: seq<Assignment>, name: string)
    ensures var last := LastFor(attrs, name);
      ReadAll(AssignAll(mo, attrs), [name]) == if last.Some? then [last.value] else ReadAll(mo, [name])
    decreases |attrs|
  {
    if attrs != [] {
      var n := |attrs| - 1;
      assert attrs == attrs[..n] + [attrs[n]];
      AssignAllConcat(mo, attrs[..n], [attrs[n]]);
      BulkSetReplaces(mo, attrs[..n], name);
      var m := AssignAll(mo, attrs[..n]);
      assert AssignAll(m, [attrs[n]]) == Assign(m, attrs[n]);
      assert ReadAll(m, [name])[0] == if name in m then m[name] else [];
    }
  }

  // ------------------------------------------------------------------ the tree

  // Deleting removes the subtree and nothing else; creating adds one node and nothing else.
  lemma {:induction false} WritesAreExact(op: Op, t: Tree, d: Dn)
    requires AnswerOf(op, t) == Done
    ensures var after := Exec(op, t).tree;
      match op
      case Delete(x) => (d in after <==> d in t && !(x <= d)) && (d in after ==> after[d] == t[d])
      case Create(p, moc, keyName, key, _) =>
        && (d in after <==> d in t || d == ChildDn(p, moc, key))
        && (d in t ==> d != ChildDn(p, moc, key) && after[d] == t[d])
        && (d == ChildDn(p, moc, key) ==> AnswerOf(Get(d, [keyName]), after) == Values([[key]]))
      case Set(x, _) => (d in after <==> d in t) && (d in t && d != x ==> after[d] == t[d])
      case _ => after == t
  {
  }

  lemma {:induction false} ParentPrefix(x: Dn, d: Dn)
    requires d != [] && x <= ParentOf(d)
    ensures x <= d
  {
  }

  lemma {:induction false} ExecKeepsClosed(op: Op, t: Tree)
    requires PrefixClosed(t)
    ensures PrefixClosed(Exec(op, t).tree)
  {
    var after := Exec(op, t).tree;
    forall d | d in after ensures |d| > 0 && (|d| > 1 ==> ParentOf(d) in after) {
      if op.Create? && d == ChildDn(op.parent, op.moc, op.key) {
        assert ParentOf(d) == op.parent;
      } else if op.Delete? && |d| > 1 && op.dn <= ParentOf(d) {
        ParentPrefix(op.dn, d);
      }
    }
  }

  // ------------------------------------------------------------------ the overlay

  // Whatever lies below a tomb in the committed tree is gone; news are created here; patches wait for the MOs
  // of the committed tree they will be assigned to.
  datatype Overlay = Overlay(tombs: set<Dn>, news: map<Dn, Mo>, patches: map<Dn, seq<Assignment>>)

  const EMPTY := Overlay({}, map[], map[])

  predicate Buried(ov: Overlay, d: Dn) {
    exists x :: x in ov.tombs && x <= d
  }

  function Patched(ov: Overlay, d: Dn, mo: Mo): Mo {
    if d in ov.patches then AssignAll(mo, ov.patches[d]) else mo
  }

  // What the transaction sees at d, without building its tree.
  function Lookup(base: Tree, ov: Overlay, d: Dn): Option<Mo> {
    if d in ov.news then Some(ov.news[d])
    else if d in base && !Buried(ov, d) then Some(Patched(ov, d, base[d]))
    else None
  }

  function View(base: Tree, ov: Overlay): (t: Tree)
    ensures forall d :: d in t <==> Lookup(base, ov, d).Some?
    ensures forall d <- t :: t[d] == Lookup(base, ov, d).value
  {
    map d | d in base.Keys + ov.news.Keys && Lookup(base, ov, d).Some? :: Lookup(base, ov, d).value
  }

  // The in-place update a write makes to the overlay.
  function Write(ov: Overlay, op: Op): Overlay {
    match op
    case Set(d, attrs) =>
      if d in ov.news then ov.(news := ov.news[d := AssignAll(ov.news[d], attrs)])
      else
        var soFar := if d in ov.patches then ov.patches[d] else [];
        ov.(patches := ov.patches[d := soFar + attrs])
    case Create(p, moc, _, key, _) => ov.(news := ov.news[ChildDn(p, moc, key) := NewMo(op)])
    case Delete(d) =>
      Overlay(ov.tombs + {d}, map x | x in ov.news && !(d <= x) :: ov.news[x],
              map x | x in ov.patches && !(d <= x) :: ov.patches[x])
    case _ => ov
  }

  function OverlayOf(writes: seq<Op>): Overlay {
    if writes == [] then EMPTY else Write(OverlayOf(writes[..|writes| - 1]), writes[|writes| - 1])
  }

  // What a write does at one place, said of that place alone.
  function ApplyAt(op: Op, d: Dn, mo: Option<Mo>): Option<Mo> {
    match op
    case Set(x, attrs) => if x == d && mo.Some? then Some(AssignAll(mo.value, attrs)) else mo
    case Create(p, moc, _, key, _) => if ChildDn(p, moc, key) == d then Some(NewMo(op)) else mo
    case Delete(x) => if x <= d then None else mo
    case _ => mo
  }

  function At(t: Tree, d: Dn): Option<Mo> {
    if d in t then Some(t[d]) else None
  }

  lemma {:induction false} ApplyIsPointwise(op: Op, t: Tree, d: Dn)
    ensures At(Apply(op, t), d) == ApplyAt(op, d, At(t, d))
  {
  }

  lemma {:induction false} BuriedByDelete(ov: Overlay, op: Op, d: Dn)
    ensures Buried(Write(ov, op), d) <==> Buried(ov, d) || (op.Delete? && op.dn <= d)
  {
    if op.Delete? {
      assert op.dn in Write(ov, op).tombs;
    }
  }

  lemma {:induction false} SetAt(base: Tree, ov: Overlay, op: Op, d: Dn)
    requires op.Set?
    ensures Lookup(base, Write(ov, op), d) == ApplyAt(op, d, Lookup(base, ov, d))
  {
    BuriedByDelete(ov, op, d);
    if d == op.dn && d !in ov.news && d in base {
      var soFar := if d in ov.patches then ov.patches[d] else [];
      AssignAllConcat(base[d], soFar, op.attrs);
    }
  }

  lemma {:induction false} WriteAt(base: Tree, ov: Overlay, op: Op, d: Dn)
    ensures Lookup(base, Write(ov, op), d) == ApplyAt(op, d, Lookup(base, ov, d))
  {
    if op.Set? {
      SetAt(base, ov, op, d);
    } else {
      BuriedByDelete(ov, op, d);
    }
  }

  lemma {:induction false} SameEverywhere(s: Tree, t: Tree)
    requires forall d :: At(s, d) == At(t, d)
    ensures s == t
  {
    assert forall d :: d in s <==> At(s, d).Some?;
    assert forall d :: d in t <==> At(t, d).Some?;
    assert forall d <- s :: s[d] == At(s, d).value;
  }

  // One write through the overlay is that write on the tree it shows, over any committed tree.
  lemma {:induction false} WriteRefines(base: Tree, ov: Overlay, op: Op)
    ensures View(base, Write(ov, op)) == Apply(op, View(base, ov))
  {
    forall d ensures At(View(base, Write(ov, op)), d) == At(Apply(op, View(base, ov)), d) {
      WriteAt(base, ov, op, d);
      ApplyIsPointwise(op, View(base, ov), d);
      assert At(View(base, ov), d) == Lookup(base, ov, d);
    }
    SameEverywhere(View(base, Write(ov, op)), Apply(op, View(base, ov)));
  }

  // After any writes, over any committed tree, the overlay shows what replaying the writes gives.
  lemma {:induction false} OverlayRefinesReplay(base: Tree, writes: seq<Op>)
    ensures View(base, OverlayOf(writes)) == Replay(base, writes)
    decreases |writes|
  {
    if writes == [] {
      assert View(base, EMPTY) == base;
    } else {
      var n := |writes| - 1;
      OverlayRefinesReplay(base, writes[..n]);
      WriteRefines(base, OverlayOf(writes[..n]), writes[n]);
      ReplaySnoc(base, writes[..n], writes[n]);
      assert writes == writes[..n] + [writes[n]];
    }
  }
}
