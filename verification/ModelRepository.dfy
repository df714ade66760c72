/**
 Containment in the model repository, and finding the class of a DN.

 Every containment relation is on two linked lists at once: that of its parent class and that of its child
 class.  Looking up a DN either checks the whole containment path or, when only one class has the last
 name, trusts the name.
*/
module ModelRepository {
  import opened Common

  datatype Containment = Containment(parent: nat, child: nat, nextSameParent: Option<nat>, nextSameChild: Option<nat>)

  // Classes are numbered by their place in names; the first relation of each list is known by class.
  datatype Model = Model(names: seq<string>, root: nat, conts: seq<Containment>,
                         firstChild: map<nat, nat>, firstParent: map<nat, nat>)

  // Which of the two lists: the children of a class or its parents.
  datatype Side = ByParent | ByChild

  function KeyOf(c: Containment, side: Side): nat {
    if side.ByParent? then c.parent else c.child
  }

  function NextOf(c: Containment, side: Side): Option<nat> {
    if side.ByParent? then c.nextSameParent else c.nextSameChild
  }

  function FirstOf(m: Model, side: Side): map<nat, nat> {
    if side.ByParent? then m.firstChild else m.firstParent
  }

  predicate NoneBetween(conts: seq<Containment>, side: Side, k: nat, lo: nat, hi: nat) {
    forall i :: lo <= i < hi && i < |conts| ==> KeyOf(conts[i], side) != k
  }

  // Every link leads to the next relation with the same key.
  ghost predicate Linked(m: Model, side: Side) {
    var first := FirstOf(m, side);
    && (forall k: nat :: k in first ==>
          && first[k] < |m.conts| && KeyOf(m.conts[first[k]], side) == k
          && NoneBetween(m.conts, side, k, 0, first[k]))
    && (forall k: nat :: k !in first ==> NoneBetween(m.conts, side, k, 0, |m.conts|))
    && (forall i :: 0 <= i < |m.conts| ==> LinkOk(m.conts, side, i))
  }

  ghost predicate LinkOk(conts: seq<Containment>, side: Side, i: nat)
    requires i < |conts|
  {
    var k := KeyOf(conts[i], side);
    match NextOf(conts[i], side)
    case None => NoneBetween(conts, side, k, i + 1, |conts|)
    case Some(j) => i < j < |conts| && KeyOf(conts[j], side) == k && NoneBetween(conts, side, k, i + 1, j)
  }

  ghost predicate Valid(m: Model) {
    && Linked(m, ByParent) && Linked(m, ByChild) && m.root < |m.names|
    && forall c <- m.conts :: c.parent < |m.names| && c.child < |m.names|
  }

  // The relations met from number i on by following the links.
  function Follow(conts: seq<Containment>, side: Side, i: nat): seq<nat>
    decreases |conts| - i
  {
    if i >= |conts| then []
    else
      match NextOf(conts[i], side)
      case Some(j) => if i < j then [i] + Follow(conts, side, j) else [i]
      case None => [i]
  }

  function Listed(m: Model, side: Side, k: nat): seq<nat> {
    if k in FirstOf(m, side) then Follow(m.conts, side, FirstOf(m, side)[k]) else []
  }

  lemma {:induction false} FollowAll(m: Model, side: Side, i: nat, x: nat)
    requires Linked(m, side) && i < |m.conts|
    ensures x in Follow(m.conts, side, i) <==>
      i <= x < |m.conts| && KeyOf(m.conts[x], side) == KeyOf(m.conts[i], side)
    decreases |m.conts| - i
  {
    assert LinkOk(m.conts, side, i);
    match NextOf(m.conts[i], side) {
      case None =>
      case Some(j) => FollowAll(m, side, j, x);
    }
  }

  // Iterating over a class's relations meets all of them and no others, on either list.
  lemma {:induction false} ListedAll(m: Model, side: Side, k: nat, x: nat)
    requires Linked(m, side)
    ensures x in Listed(m, side, k) <==> x < |m.conts| && KeyOf(m.conts[x], side) == k
  {
    if k in FirstOf(m, side) {
      FollowAll(m, side, FirstOf(m, side)[k], x);
    }
  }

  ghost predicate Ascending(s: seq<nat>) {
    forall a, b :: 0 <= a < b < |s| ==> s[a] < s[b]
  }

  lemma {:induction false} FollowAscends(m: Model, side: Side, i: nat)
    requires Linked(m, side) && i < |m.conts|
    ensures Ascending(Follow(m.conts, side, i))
    decreases |m.conts| - i
  {
    assert LinkOk(m.conts, side, i);
    match NextOf(m.conts[i], side) {
      case None =>
      case Some(j) =>
        var rest := Follow(m.conts, side, j);
        FollowAscends(m, side, j);
        forall b | 0 <= b < |rest| ensures i < rest[b] {
          assert rest[b] in rest;
          FollowAll(m, side, j, rest[b]);
        }
        assert Follow(m.conts, side, i) == [i] + rest;
    }
  }

  // It meets each of them once, in the order they were added.
  lemma {:induction false} ListedInOrder(m: Model, side: Side, k: nat)
    requires Linked(m, side)
    ensures Ascending(Listed(m, side, k))
  {
    if k in FirstOf(m, side) {
      FollowAscends(m, side, FirstOf(m, side)[k]);
    }
  }

  // So both lists tell the same relations.
  lemma {:induction false} BothListsAgree(m: Model, x: nat, parent: nat, child: nat)
    requires Valid(m) && x < |m.conts|
    ensures (x in Listed(m, ByParent, parent) && m.conts[x].child == child)
       <==> (x in Listed(m, ByChild, child) && m.conts[x].parent == parent)
  {
    ListedAll(m, ByParent, parent, x);
    ListedAll(m, ByChild, child, x);
  }

  // ------------------------------------------------------------------ looking up a DN

  predicate Contained(m: Model, parent: nat, child: nat) {
    exists i :: 0 <= i < |m.conts| && m.conts[i].parent == parent && m.conts[i].child == child
  }

  function NameOf(m: Model, c: nat): string {
    if c < |m.names| then m.names[c] else ""
  }

  // No class has two children of the same name.
  ghost predicate DistinctChildNames(m: Model) {
    forall p: nat, a: nat, b: nat :: Contained(m, p, a) && Contained(m, p, b) && NameOf(m, a) == NameOf(m, b) ==> a == b
  }

  function FindIn(m: Model, relations: seq<nat>, name: string): Option<nat> {
    if relations == [] then None
    else if relations[0] < |m.conts| && NameOf(m, m.conts[relations[0]].child) == name then
      Some(m.conts[relations[0]].child)
    else FindIn(m, relations[1..], name)
  }

  function FindChild(m: Model, parent: nat, name: string): Option<nat> {
    FindIn(m, Listed(m, ByParent, parent), name)
  }

  lemma {:induction false} FindInIs(m: Model, relations: seq<nat>, name: string)
    ensures match FindIn(m, relations, name)
      case Some(c) => NameOf(m, c) == name && exists x :: x in relations && x < |m.conts| && m.conts[x].child == c
      case None => forall x :: x in relations && x < |m.conts| ==> NameOf(m, m.conts[x].child) != name
  {
    if relations != [] {
      assert relations[0] in relations;
      FindInIs(m, relations[1..], name);
    }
  }

  lemma {:induction false} FindChildIs(m: Model, parent: nat, name: string, c: nat)
    requires Valid(m) && DistinctChildNames(m)
    ensures FindChild(m, parent, name) == Some(c) <==> Contained(m, parent, c) && NameOf(m, c) == name
  {
    forall x: nat ensures x in Listed(m, ByParent, parent) <==> x < |m.conts| && m.conts[x].parent == parent {
      ListedAll(m, ByParent, parent, x);
    }
    FindInIs(m, Listed(m, ByParent, parent), name);
    if FindChild(m, parent, name).Some? {
      assert Contained(m, parent, FindChild(m, parent, name).value);
    }
  }

  // Walk the rest of a DN's class names down from class c.
  function Walk(m: Model, c: nat, rest: seq<string>): Option<nat>
    decreases |rest|
  {
    if rest == [] then Some(c)
    else
      match FindChild(m, c, rest[0])
      case Some(d) => Walk(m, d, rest[1..])
      case None => None
  }

  function FullLookup(m: Model, dn: seq<string>): Option<nat> {
    if dn == [] || NameOf(m, m.root) != dn[0] then None else Walk(m, m.root, dn[1..])
  }

  predicate OnlyOneNamed(m: Model, name: string) {
    exists c :: (0 <= c < |m.names| && m.names[c] == name
                 && forall d :: 0 <= d < |m.names| && m.names[d] == name ==> d == c)
  }

  function FirstNamed(names: seq<string>, name: string): Option<nat> {
    if names == [] then None
    else if names[0] == name then Some(0)
    else
      match FirstNamed(names[1..], name)
      case Some(i) => Some(i + 1)
      case None => None
  }

  lemma {:induction false} FirstNamedIs(names: seq<string>, name: string)
    ensures match FirstNamed(names, name)
      case Some(i) => i < |names| && names[i] == name
      case None => forall i :: 0 <= i < |names| ==> names[i] != name
  {
    if names != [] && names[0] != name {
      FirstNamedIs(names[1..], name);
    }
  }

  // The path is only checked when more than one class has the name.
  function FastLookup(m: Model, dn: seq<string>): Option<nat> {
    if dn == [] then None
    else if OnlyOneNamed(m, dn[|dn| - 1]) then FirstNamed(m.names, dn[|dn| - 1])
    else FullLookup(m, dn)
  }

  function GetMocFromDn(m: Model, dn: seq<string>, checkFullMocPath: bool): Option<nat> {
    if checkFullMocPath then FullLookup(m, dn) else FastLookup(m, dn)
  }

  // A containment path from the root with the names of the DN, ending in c.
  ghost predicate PathTo(m: Model, c: nat, dn: seq<string>)
    decreases |dn|
  {
    if dn == [] then false
    else if |dn| == 1 then c == m.root && NameOf(m, c) == dn[0]
    else
      NameOf(m, c) == dn[|dn| - 1] && exists p: nat :: Contained(m, p, c) && PathTo(m, p, dn[..|dn| - 1])
  }

  lemma {:induction false} WalkSnoc(m: Model, c: nat, rest: seq<string>, name: string)
    ensures Walk(m, c, rest + [name]) ==
      match Walk(m, c, rest)
      case Some(d) => FindChild(m, d, name)
      case None => None
    decreases |rest|
  {
    if rest == [] {
      assert ([] + [name])[1..] == [];
    } else {
      assert (rest + [name])[1..] == rest[1..] + [name];
      match FindChild(m, c, rest[0]) {
        case Some(d) => WalkSnoc(m, d, rest[1..], name);
        case None =>
      }
    }
  }

  lemma {:induction false} FullLookupSnoc(m: Model, dn: seq<string>)
    requires |dn| > 1
    ensures FullLookup(m, dn) ==
      match FullLookup(m, dn[..|dn| - 1])
      case Some(p) => FindChild(m, p, dn[|dn| - 1])
      case None => None
  {
    var n := |dn| - 1;
    assert dn[..n][1..] + [dn[n]] == dn[1..];
    WalkSnoc(m, m.root, dn[..n][1..], dn[n]);
  }

  // The full check finds a class exactly when a containment path leads to it.
  lemma {:induction false} FullLookupIsPath(m: Model, dn: seq<string>, c: nat)
    requires Valid(m) && DistinctChildNames(m)
    ensures FullLookup(m, dn) == Some(c) <==> PathTo(m, c, dn)
    decreases |dn|
  {
    if |dn| > 1 {
      var before := dn[..|dn| - 1];
      FullLookupSnoc(m, dn);
      if FullLookup(m, before).Some? {
        var p := FullLookup(m, before).value;
        FullLookupIsPath(m, before, p);
        FindChildIs(m, p, dn[|dn| - 1], c);
      }
      if PathTo(m, c, dn) {
        var q: nat :| Contained(m, q, c) && PathTo(m, q, before);
        FullLookupIsPath(m, before, q);
      }
    }
  }

  lemma {:induction false} ContainedInRange(m: Model, p: nat, c: nat)
    requires Valid(m) && Contained(m, p, c)
    ensures c < |m.names|
  {
    var i :| 0 <= i < |m.conts| && m.conts[i].parent == p && m.conts[i].child == c;
    assert m.conts[i] in m.conts;
  }

  lemma {:induction false} FoundChildIs(m: Model, parent: nat, name: string, c: nat)
    requires Valid(m) && FindChild(m, parent, name) == Some(c)
    ensures Contained(m, parent, c) && c < |m.names| && m.names[c] == name
  {
    forall x: nat ensures x in Listed(m, ByParent, parent) <==> x < |m.conts| && m.conts[x].parent == parent {
      ListedAll(m, ByParent, parent, x);
    }
    FindInIs(m, Listed(m, ByParent, parent), name);
    ContainedInRange(m, parent, c);
  }

  // Whatever the full check finds has the DN's last name and is a class of the model.
  lemma {:induction false} FoundHasName(m: Model, dn: seq<string>, c: nat)
    requires Valid(m) && FullLookup(m, dn) == Some(c)
    ensures dn != [] && c < |m.names| && m.names[c] == dn[|dn| - 1]
  {
    if |dn| > 1 {
      FullLookupSnoc(m, dn);
      FoundChildIs(m, FullLookup(m, dn[..|dn| - 1]).value, dn[|dn| - 1], c);
    }
  }

  // The fast lookup finds whatever the full check finds, and the same class.
  lemma {:induction false} FastFindsWhatFullFinds(m: Model, dn: seq<string>, c: nat)
    requires Valid(m) && GetMocFromDn(m, dn, true) == Some(c)
    ensures GetMocFromDn(m, dn, false) == Some(c)
  {
    FoundHasName(m, dn, c);
    FirstNamedIs(m.names, dn[|dn| - 1]);
  }

  // The two agree exactly unless the last name is that of one class only and the path does not lead to it.
  lemma {:induction false} FastAgreesIff(m: Model, dn: seq<string>)
    requires Valid(m)
    ensures GetMocFromDn(m, dn, false) == GetMocFromDn(m, dn, true) <==>
      dn == [] || !OnlyOneNamed(m, dn[|dn| - 1]) || GetMocFromDn(m, dn, true).Some?
  {
    if dn != [] {
      FirstNamedIs(m.names, dn[|dn| - 1]);
      if GetMocFromDn(m, dn, true).Some? {
        FastFindsWhatFullFinds(m, dn, GetMocFromDn(m, dn, true).value);
      }
    }
  }

  // Where one class only has the DN's last name, the fast lookup gives that class whatever the rest of the DN says.
  lemma {:induction false} FastTrustsTheName(m: Model, dn: seq<string>, c: nat)
    requires dn != [] && OnlyOneNamed(m, dn[|dn| - 1])
    ensures GetMocFromDn(m, dn, false) == Some(c) <==> c < |m.names| && m.names[c] == dn[|dn| - 1]
  {
    FirstNamedIs(m.names, dn[|dn| - 1]);
  }

  // ------------------------------------------------------------------ building the lists

  // The last relation with the key, if any.
  function LastWith(conts: seq<Containment>, side: Side, k: nat): Option<nat> {
    if conts == [] then None
    else if KeyOf(conts[|conts| - 1], side) == k then Some(|conts| - 1)
    else LastWith(conts[..|conts| - 1], side, k)
  }

  function WithNext(c: Containment, side: Side, n: nat): Containment {
    if side.ByParent? then c.(nextSameParent := Some(n)) else c.(nextSameChild := Some(n))
  }

  // Let the last relation with the key point to number n.
  function Relink(conts: seq<Containment>, side: Side, k: nat, n: nat): seq<Containment> {
    match LastWith(conts, side, k)
    case Some(i) => if i < |conts| then conts[i := WithNext(conts[i], side, n)] else conts
    case None => conts
  }

  // A new containment goes to the end of both its lists.
  function AddContainment(m: Model, parent: nat, child: nat): Model {
    var n := |m.conts|;
    var conts := Relink(Relink(m.conts, ByParent, parent, n), ByChild, child, n);
    m.(conts := conts + [Containment(parent, child, None, None)],
       firstChild := if parent in m.firstChild then m.firstChild else m.firstChild[parent := n],
       firstParent := if child in m.firstParent then m.firstParent else m.firstParent[child := n])
  }

  lemma {:induction false} LastWithIs(conts: seq<Containment>, side: Side, k: nat)
    ensures match LastWith(conts, side, k)
      case Some(i) => i < |conts| && KeyOf(conts[i], side) == k && NoneBetween(conts, side, k, i + 1, |conts|)
      case None => NoneBetween(conts, side, k, 0, |conts|)
  {
    if conts != [] && KeyOf(conts[|conts| - 1], side) != k {
      LastWithIs(conts[..|conts| - 1], side, k);
    }
  }

  // Relinking one side changes nobody's keys and, on that side, one link at most.
  lemma {:induction false} RelinkIs(conts: seq<Containment>, side: Side, k: nat, n: nat)
    ensures var r := Relink(conts, side, k, n);
      && |r| == |conts|
      && (forall i, s :: 0 <= i < |conts| ==> KeyOf(r[i], s) == KeyOf(conts[i], s))
      && (forall i, s :: 0 <= i < |conts| && s != side ==> NextOf(r[i], s) == NextOf(conts[i], s))
      && (forall i :: 0 <= i < |conts| ==>
            NextOf(r[i], side) == if LastWith(conts, side, k) == Some(i) then Some(n) else NextOf(conts[i], side))
  {
    LastWithIs(conts, side, k);
  }

  lemma {:induction false} LastWithSameKeys(a: seq<Containment>, b: seq<Containment>, side: Side, k: nat)
    requires |a| == |b| && forall i :: 0 <= i < |a| ==> KeyOf(a[i], side) == KeyOf(b[i], side)
    ensures LastWith(a, side, k) == LastWith(b, side, k)
  {
    if a != [] {
      LastWithSameKeys(a[..|a| - 1], b[..|b| - 1], side, k);
    }
  }

  // What the addition does to the links of one side.
  lemma {:induction false} AddedLinks(m: Model, parent: nat, child: nat, side: Side)
    ensures var n := |m.conts|; var c := AddContainment(m, parent, child).conts;
      var k := if side.ByParent? then parent else child;
      && |c| == n + 1 && KeyOf(c[n], side) == k && NextOf(c[n], side) == None
      && (forall i :: 0 <= i < n ==> KeyOf(c[i], side) == KeyOf(m.conts[i], side))
      && (forall i :: 0 <= i < n ==>
            NextOf(c[i], side) == if LastWith(m.conts, side, k) == Some(i) then Some(n) else NextOf(m.conts[i], side))
  {
    var n := |m.conts|;
    var once := Relink(m.conts, ByParent, parent, n);
    RelinkIs(m.conts, ByParent, parent, n);
    RelinkIs(once, ByChild, child, n);
    LastWithSameKeys(once, m.conts, ByChild, child);
  }

  lemma {:induction false} AddKeepsLinks(m: Model, parent: nat, child: nat, side: Side)
    requires Linked(m, side)
    ensures var c := AddContainment(m, parent, child).conts;
      forall i :: 0 <= i < |c| ==> LinkOk(c, side, i)
  {
    var n := |m.conts|;
    var k := if side.ByParent? then parent else child;
    var c := AddContainment(m, parent, child).conts;
    AddedLinks(m, parent, child, side);
    LastWithIs(m.conts, side, k);
    forall i | 0 <= i < |c| ensures LinkOk(c, side, i) {
      if i < n {
        assert LinkOk(m.conts, side, i);
      }
    }
  }

  lemma {:induction false} AddKeepsFirst(m: Model, parent: nat, child: nat, side: Side, k: nat)
    requires Linked(m, side)
    ensures var m' := AddContainment(m, parent, child);
      if k in FirstOf(m', side) then
        FirstOf(m', side)[k] < |m'.conts| && KeyOf(m'.conts[FirstOf(m', side)[k]], side) == k
        && NoneBetween(m'.conts, side, k, 0, FirstOf(m', side)[k])
      else NoneBetween(m'.conts, side, k, 0, |m'.conts|)
  {
    AddedLinks(m, parent, child, side);
    assert k !in FirstOf(m, side) ==> NoneBetween(m.conts, side, k, 0, |m.conts|);
  }

  lemma {:induction false} AddKeepsLinked(m: Model, parent: nat, child: nat, side: Side)
    requires Linked(m, side)
    ensures Linked(AddContainment(m, parent, child), side)
  {
    AddKeepsLinks(m, parent, child, side);
    forall k: nat { AddKeepsFirst(m, parent, child, side, k); }
  }

  // What an addition makes true: that relation, and no other.
  lemma {:induction false} AddContains(m: Model, parent: nat, child: nat, p: nat, c: nat)
    ensures Contained(AddContainment(m, parent, child), p, c) <==>
      Contained(m, p, c) || (p == parent && c == child)
  {
    var m' := AddContainment(m, parent, child);
    AddedLinks(m, parent, child, ByParent);
    AddedLinks(m, parent, child, ByChild);
    forall i | 0 <= i < |m.conts|
      ensures m'.conts[i].parent == m.conts[i].parent && m'.conts[i].child == m.conts[i].child
    {
      assert KeyOf(m'.conts[i], ByParent) == KeyOf(m.conts[i], ByParent);
      assert KeyOf(m'.conts[i], ByChild) == KeyOf(m.conts[i], ByChild);
    }
    assert m'.conts[|m.conts|] == Containment(parent, child, None, None);
    if p == parent && c == child {
      assert m'.conts[|m.conts|].parent == p;
    }
    if Contained(m, p, c) {
      var i :| 0 <= i < |m.conts| && m.conts[i].parent == p && m.conts[i].child == c;
      assert m'.conts[i].parent == p;
    }
  }

  // The links met from relation i on, after the addition: the same, and then the new relation if it has i's key.
  lemma {:induction false} FollowAfterAdd(m: Model, parent: nat, child: nat, side: Side, i: nat)
    requires Linked(m, side) && i < |m.conts|
    ensures var k := if side.ByParent? then parent else child;
      Follow(AddContainment(m, parent, child).conts, side, i) ==
        Follow(m.conts, side, i) + if KeyOf(m.conts[i], side) == k then [|m.conts|] else []
    decreases |m.conts| - i
  {
    var k := if side.ByParent? then parent else child;
    var c := AddContainment(m, parent, child).conts;
    AddedLinks(m, parent, child, side);
    LastWithIs(m.conts, side, k);
    assert LinkOk(m.conts, side, i);
    match NextOf(m.conts[i], side) {
      case None =>
        assert Follow(c, side, |m.conts|) == [|m.conts|];
      case Some(j) =>
        FollowAfterAdd(m, parent, child, side, j);
        assert LastWith(m.conts, side, k) != Some(i);
    }
  }

  // On either list the new relation comes last among those of its class, and no other class's relations change.
  lemma {:induction false} AddAppends(m: Model, parent: nat, child: nat, side: Side, q: nat)
    requires Linked(m, side)
    ensures var k := if side.ByParent? then parent else child;
      Listed(AddContainment(m, parent, child), side, q) == Listed(m, side, q) + if q == k then [|m.conts|] else []
  {
    var m' := AddContainment(m, parent, child);
    AddedLinks(m, parent, child, side);
    if q in FirstOf(m, side) {
      FollowAfterAdd(m, parent, child, side, FirstOf(m, side)[q]);
    } else if q in FirstOf(m', side) {
      assert Follow(m'.conts, side, |m.conts|) == [|m.conts|];
    }
  }

  // Adding a containment keeps both lists complete.  It goes to the end of its parent's children and of its child's
  // parents, and every other list stays as it is.
  lemma {:induction false} AddKeepsValid(m: Model, parent: nat, child: nat, q: nat)
    requires Valid(m) && parent < |m.names| && child < |m.names|
    ensures var m' := AddContainment(m, parent, child); var added := [|m.conts|];
      && Valid(m')
      && Listed(m', ByParent, q) == Listed(m, ByParent, q) + (if q == parent then added else [])
      && Listed(m', ByChild, q) == Listed(m, ByChild, q) + (if q == child then added else [])
  {
    var m' := AddContainment(m, parent, child);
    AddKeepsLinked(m, parent, child, ByParent);
    AddKeepsLinked(m, parent, child, ByChild);
    AddedLinks(m, parent, child, ByParent);
    AddedLinks(m, parent, child, ByChild);
    forall c | c in m'.conts ensures c.parent < |m.names| && c.child < |m.names| {
      var i :| 0 <= i < |m'.conts| && m'.conts[i] == c;
      if i < |m.conts| {
        assert m.conts[i] in m.conts;
        assert c.parent == KeyOf(m'.conts[i], ByParent) && c.child == KeyOf(m'.conts[i], ByChild);
      }
    }
    AddAppends(m, parent, child, ByParent, q);
    AddAppends(m, parent, child, ByChild, q);
  }
}
