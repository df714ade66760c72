/**
 The deleted-objects list of a transaction's cache: a tree of deletion points keyed by DN parts.  A DN
 counts as deleted when it or one of its ancestors is an active point; points below a higher active one go
 dormant so that re-creating the higher object can wake them.

 What the list promises is that inserting a DN deletes its subtree and nothing else.  The code keeps that
 promise exactly when the DN is not already the topmost active point of its branch: then inserting it again
 makes it dormant, and the object is back.
*/
module DeletionPoints {
  import opened Common

  type Path = seq<string>

  datatype Kind = Plain | Dormant | Active

  // The nested maps as one map from the path of a node to its kind.
  type Points = map<Path, Kind>

  // Every node hangs below its parent.
  ghost predicate Closed(t: Points) {
    forall p <- t :: |p| > 0 && (|p| > 1 ==> p[..|p| - 1] in t)
  }

  lemma {:induction false} PrefixPresent(t: Points, p: Path, i: nat)
    requires Closed(t) && p in t && 1 <= i <= |p|
    ensures p[..i] in t
    decreases |p| - i
  {
    if i < |p| {
      PrefixPresent(t, p, i + 1);
      assert p[..i + 1][..i] == p[..i];
    } else {
      assert p[..i] == p;
    }
  }

  predicate IsActive(t: Points, p: Path) {
    p in t && t[p] == Active
  }

  predicate IsDormant(t: Points, p: Path) {
    p in t && t[p] == Dormant
  }

  // Deleted: an active point at the DN or above it.
  ghost predicate Deleted(t: Points, dn: Path) {
    exists r :: r <= dn && IsActive(t, r)
  }

  ghost predicate DeletedAbove(t: Points, dn: Path) {
    exists r :: r < dn && IsActive(t, r)
  }

  // A point strictly below dn, at y or above it.
  ghost predicate PointBetween(t: Points, dn: Path, y: Path) {
    exists r :: dn < r <= y && r in t && t[r] != Plain
  }

  // ------------------------------------------------------------------ what the code computes

  // SetActiveDPsDormant on the node dn.
  function Silenced(t: Points, dn: Path): Points {
    map p | p in t :: if dn <= p && t[p] == Active then Dormant else t[p]
  }

  ghost predicate TopmostDormant(t: Points, dn: Path, p: Path) {
    dn <= p && IsDormant(t, p) && forall r :: dn <= r < p ==> !IsDormant(t, r)
  }

  // SetDormantDPsActive on the node dn.
  ghost function Woken(t: Points, dn: Path): Points {
    map p | p in t :: if TopmostDormant(t, dn, p) then Active else t[p]
  }

  function Grafted(t: Points, dn: Path): Points {
    map p | p in t.Keys + (set i | 1 <= i <= |dn| :: dn[..i]) ::
      if p == dn then Active else if p in t then t[p] else Plain
  }

  // The walk below the first element meets an active point, the last element included.
  ghost predicate MeetsActive(t: Points, dn: Path) {
    exists i :: 2 <= i <= |dn| && IsActive(t, dn[..i])
  }

  ghost function Insert(t: Points, dn: Path): Points
    requires dn != []
  {
    if IsActive(t, dn[..1]) then t
    else if dn !in t then Grafted(t, dn)
    else if MeetsActive(t, dn) then t[dn := Dormant]
    else Silenced(t, dn)[dn := Active]
  }

  ghost function Remove(t: Points, dn: Path): Points {
    if IsActive(t, dn) then Woken(t, dn)[dn := Dormant] else t
  }

  // ------------------------------------------------------------------ inserting

  lemma {:induction false} MeetsActiveMeans(t: Points, dn: Path)
    requires dn != [] && Closed(t) && !IsActive(t, dn[..1])
    ensures MeetsActive(t, dn) <==> Deleted(t, dn)
  {
    if Deleted(t, dn) {
      var r :| r <= dn && IsActive(t, r);
      assert r == dn[..|r|];
      assert |r| != 0 && |r| != 1;
    }
  }

  // The one family of DNs that inserting does not delete: a topmost active point below the first level.
  ghost predicate DeletedTwice(t: Points, dn: Path) {
    |dn| >= 2 && IsActive(t, dn) && !DeletedAbove(t, dn)
  }

  lemma {:induction false} InsertKeepsOthers(t: Points, dn: Path, r: Path)
    requires Closed(t) && dn != [] && !(dn <= r)
    ensures IsActive(Insert(t, dn), r) <==> IsActive(t, r)
  {
  }

  lemma {:induction false} InsertClosed(t: Points, dn: Path)
    requires Closed(t) && dn != []
    ensures Closed(Insert(t, dn))
  {
    var u := Insert(t, dn);
    forall p | p in u ensures |p| > 0 && (|p| > 1 ==> p[..|p| - 1] in u) {
      if p !in t {
        var i :| 1 <= i <= |dn| && p == dn[..i];
        if i > 1 {
          assert p[..|p| - 1] == dn[..i - 1];
        }
      }
    }
  }

  // After inserting dn, something is deleted if it was or if it lies in dn's subtree; nothing else.  For a DN deleted
  // twice, its own point is what has gone.
  lemma {:induction false} InsertExact(t: Points, dn: Path, y: Path)
    requires Closed(t) && dn != []
    ensures Deleted(Insert(t, dn), y) <==>
      if DeletedTwice(t, dn) then exists r :: r <= y && r != dn && IsActive(t, r)
      else Deleted(t, y) || dn <= y
  {
    var u := Insert(t, dn);
    assert dn[..1] <= dn;
    if IsActive(t, dn[..1]) {
      assert dn[..1] < dn || dn[..1] == dn;
      assert dn <= y ==> dn[..1] <= y;
    } else if dn !in t {
      GraftExact(t, dn, y);
    } else if MeetsActive(t, dn) {
      MeetsActiveMeans(t, dn);
      DemoteExact(t, dn, y);
    } else {
      MeetsActiveMeans(t, dn);
      SilenceExact(t, dn, y);
    }
  }

  lemma {:induction false} GraftExact(t: Points, dn: Path, y: Path)
    requires Closed(t) && dn != [] && dn !in t
    ensures Deleted(Grafted(t, dn), y) <==> Deleted(t, y) || dn <= y
  {
    var u := Grafted(t, dn);
    assert dn == dn[..|dn|];
    assert IsActive(u, dn);
    assert forall r :: r != dn ==> (IsActive(u, r) <==> IsActive(t, r));
  }

  lemma {:induction false} DemoteExact(t: Points, dn: Path, y: Path)
    requires dn in t && Deleted(t, dn)
    ensures var u := t[dn := Dormant];
      Deleted(u, y) <==>
        if IsActive(t, dn) && !DeletedAbove(t, dn) then exists r :: r <= y && r != dn && IsActive(t, r)
        else Deleted(t, y) || dn <= y
  {
    var u := t[dn := Dormant];
    assert forall r :: IsActive(u, r) <==> IsActive(t, r) && r != dn;
    if !IsActive(t, dn) || DeletedAbove(t, dn) {
      var r :| r < dn && IsActive(t, r);
      assert dn <= y ==> r <= y;
    }
  }

  lemma {:induction false} SilenceExact(t: Points, dn: Path, y: Path)
    requires dn in t && !Deleted(t, dn)
    ensures Deleted(Silenced(t, dn)[dn := Active], y) <==> Deleted(t, y) || dn <= y
  {
    var u := Silenced(t, dn)[dn := Active];
    assert IsActive(u, dn);
    assert forall r :: !(dn <= r) ==> (IsActive(u, r) <==> IsActive(t, r));
    assert forall r :: dn <= r && r != dn ==> !IsActive(u, r);
    if Deleted(t, y) && !(dn <= y) {
      var r :| r <= y && IsActive(t, r);
      assert !(dn <= r);
    }
    if Deleted(u, y) && !(dn <= y) {
      var r :| r <= y && IsActive(u, r);
      assert !(dn <= r);
    }
  }

  // Inserting a DN deletes it, if and only if it is not deleted twice.
  lemma {:induction false} InsertDeletesUnlessTwice(t: Points, dn: Path)
    requires Closed(t) && dn != []
    ensures Deleted(Insert(t, dn), dn) <==> !DeletedTwice(t, dn)
  {
    InsertExact(t, dn, dn);
  }

  // Such a DN is reached by deleting the same object twice.
  lemma {:induction false} SecondDeleteRevives(dn: Path)
    requires |dn| >= 2
    ensures var once := Insert(map[], dn);
      Deleted(once, dn) && DeletedTwice(once, dn) && !Deleted(Insert(once, dn), dn)
  {
    InsertClosed(map[], dn);
    var once := Insert(map[], dn);
    assert forall r :: IsActive(once, r) ==> r == dn;
    InsertDeletesUnlessTwice(map[], dn);
    InsertDeletesUnlessTwice(once, dn);
  }

  // ------------------------------------------------------------------ removing

  lemma {:induction false} TopmostExists(t: Points, dn: Path, y: Path)
    requires PointBetween(t, dn, y) && !IsDormant(t, dn)
    ensures exists r :: dn < r <= y && (IsActive(t, r) || TopmostDormant(t, dn, r))
    decreases |y|
  {
    var r :| dn < r <= y && r in t && t[r] != Plain;
    if !IsActive(t, r) && !TopmostDormant(t, dn, r) {
      var q :| dn <= q < r && IsDormant(t, q);
      assert dn != q && q <= q;
      assert PointBetween(t, dn, q);
      TopmostExists(t, dn, q);
    }
  }

  // Removing an active point that lies below no other: below it exactly what has a point of its own stays deleted.
  // Removing one that does, and anywhere else, nothing changes.
  lemma {:induction false} RemoveExact(t: Points, dn: Path, y: Path)
    requires IsActive(t, dn)
    ensures Deleted(Remove(t, dn), y) <==>
      if dn <= y && !DeletedAbove(t, dn) then PointBetween(t, dn, y) else Deleted(t, y)
  {
    var u := Remove(t, dn);
    assert forall r :: !(dn <= r) ==> (IsActive(u, r) <==> IsActive(t, r));
    assert forall r :: dn < r ==> (IsActive(u, r) <==> IsActive(t, r) || TopmostDormant(t, dn, r));
    assert !IsActive(u, dn);
    if dn <= y && !DeletedAbove(t, dn) {
      if PointBetween(t, dn, y) {
        TopmostExists(t, dn, y);
        var r :| dn < r <= y && (IsActive(t, r) || TopmostDormant(t, dn, r));
        assert IsActive(u, r);
      }
      if Deleted(u, y) {
        var r :| r <= y && IsActive(u, r);
        PrefixesCompare(r, dn, y);
        assert dn < r;
      }
    } else if dn <= y {
      var r :| r < dn && IsActive(t, r);
      assert r <= y && IsActive(t, r) && IsActive(u, r);
    } else {
      assert forall r :: IsActive(u, r) && r <= y ==> !(dn <= r);
      assert forall r :: IsActive(t, r) && r <= y ==> !(dn <= r);
    }
  }

  // Deleting a visible object and creating it again: what lies elsewhere, and the object, are as they were; below
  // it, exactly what already had a deletion point of its own stays deleted, and everything else is visible.
  lemma {:induction false} RecreateExact(t: Points, dn: Path, y: Path)
    requires Closed(t) && dn != [] && !Deleted(t, dn)
    ensures Deleted(Remove(Insert(t, dn), dn), y) <==> if dn < y then PointBetween(t, dn, y) else Deleted(t, y)
  {
    var u := Insert(t, dn);
    assert !IsActive(t, dn[..1]);
    MeetsActiveMeans(t, dn);
    assert dn == dn[..|dn|];
    assert dn[..1] <= dn;
    assert IsActive(u, dn);
    forall r | r < dn ensures !IsActive(u, r) {
      InsertKeepsOthers(t, dn, r);
    }
    RemoveExact(u, dn, y);
    InsertExact(t, dn, y);
    forall r | dn < r ensures (r in u && u[r] != Plain) <==> (r in t && t[r] != Plain) {
      if dn !in t {
        NothingBelow(t, dn, r);
      }
    }
    assert PointBetween(u, dn, y) <==> PointBetween(t, dn, y);
  }

  lemma {:induction false} NothingBelow(t: Points, dn: Path, r: Path)
    requires Closed(t) && dn != [] && dn !in t && dn <= r
    ensures r !in t
  {
    assert r[..|dn|] == dn;
    if r in t {
      PrefixPresent(t, r, |dn|);
    }
  }

  // So the pair restores the list's meaning if and only if no dormant point below dn lies uncovered.
  lemma {:induction false} RecreateRestores(t: Points, dn: Path)
    requires Closed(t) && dn != [] && !Deleted(t, dn)
    ensures (forall y :: Deleted(Remove(Insert(t, dn), dn), y) <==> Deleted(t, y)) <==>
      (forall d :: dn < d && IsDormant(t, d) ==> Deleted(t, d))
  {
    var u := Remove(Insert(t, dn), dn);
    if forall d :: dn < d && IsDormant(t, d) ==> Deleted(t, d) {
      forall y ensures Deleted(u, y) <==> Deleted(t, y) {
        RecreateExact(t, dn, y);
        if dn < y && Deleted(t, y) {
          BelowVisible(t, dn, y);
        }
        if dn < y && PointBetween(t, dn, y) {
          var r :| dn < r <= y && r in t && t[r] != Plain;
          assert IsActive(t, r) ==> r <= r;
          assert Deleted(t, r);
          var q :| q <= r && IsActive(t, q);
          assert q <= y;
        }
      }
    } else {
      var d :| dn < d && IsDormant(t, d) && !Deleted(t, d);
      RecreateExact(t, dn, d);
      assert PointBetween(t, dn, d);
    }
  }

  // Below a visible object, being deleted means having an active point below that object.
  lemma {:induction false} BelowVisible(t: Points, dn: Path, y: Path)
    requires !Deleted(t, dn) && dn < y && Deleted(t, y)
    ensures PointBetween(t, dn, y)
  {
    var r :| r <= y && IsActive(t, r);
    PrefixesCompare(r, dn, y);
  }

  // A re-created object shows again the committed descendants that its deletion had hidden, unless a deletion point
  // of their own was on record.
  lemma {:induction false} RecreateRevealsChildren(t: Points, dn: Path, y: Path)
    requires Closed(t) && dn != [] && !Deleted(t, dn) && dn < y
    ensures Deleted(Insert(t, dn), y)
    ensures Deleted(Remove(Insert(t, dn), dn), y) <==> PointBetween(t, dn, y)
  {
    InsertExact(t, dn, y);
    assert dn <= dn;
    assert !DeletedTwice(t, dn);
    RecreateExact(t, dn, y);
  }

  // ------------------------------------------------------------------ one deletion per branch

  // No deletion is recorded inside the subtree of another, so each deleted subtree is sent once.
  ghost predicate Antichain(t: Points) {
    forall p, q :: IsActive(t, p) && IsActive(t, q) ==> !(p < q)
  }

  // Inserting keeps that, unless it adds a path that was not there below an active point other than the first part.
  lemma {:induction false} InsertKeepsAntichain(t: Points, dn: Path)
    requires Closed(t) && dn != [] && Antichain(t)
    ensures Antichain(Insert(t, dn)) <==> IsActive(t, dn[..1]) || dn in t || !DeletedAbove(t, dn)
  {
    var u := Insert(t, dn);
    assert dn == dn[..|dn|];
    if !IsActive(t, dn[..1]) && dn !in t {
      assert forall r :: IsActive(u, r) <==> IsActive(t, r) || r == dn;
      if DeletedAbove(t, dn) {
        var r :| r < dn && IsActive(t, r);
        assert IsActive(u, r) && IsActive(u, dn);
      }
      forall q | IsActive(u, q) ensures !(dn < q) {
        if dn < q {
          NothingBelow(t, dn, q);
        }
      }
    } else if !IsActive(t, dn[..1]) && !MeetsActive(t, dn) {
      MeetsActiveMeans(t, dn);
      forall p, q | IsActive(u, p) && IsActive(u, q) ensures !(p < q) {
        assert p == dn || (IsActive(t, p) && !(dn <= p));
        assert q == dn || (IsActive(t, q) && !(dn <= q));
        assert q == dn && p < q ==> Deleted(t, dn);
      }
    } else {
      assert forall r :: IsActive(u, r) ==> IsActive(t, r);
    }
  }

  lemma {:induction false} RemoveKeepsAntichain(t: Points, dn: Path)
    requires Antichain(t)
    ensures Antichain(Remove(t, dn))
  {
    if IsActive(t, dn) {
      var u := Remove(t, dn);
      forall p, q | IsActive(u, p) && IsActive(u, q) ensures !(p < q) {
        if p < q {
          assert IsActive(t, p) || TopmostDormant(t, dn, p);
          assert IsActive(t, q) || TopmostDormant(t, dn, q);
          assert IsActive(t, p) ==> !(dn < p);
          assert IsActive(t, q) ==> !(dn < q);
          if IsActive(t, p) && TopmostDormant(t, dn, q) {
            PrefixesCompare(p, dn, q);
          }
          assert false;
        }
      }
    }
  }

  // ------------------------------------------------------------------ whole transactions

  datatype Edit = Deletion(dn: Path) | Creation(dn: Path)

  ghost function Edited(t: Points, e: Edit): Points
    requires e.dn != []
  {
    if e.Deletion? then Insert(t, e.dn) else Remove(t, e.dn)
  }

  ghost function EditAll(t: Points, es: seq<Edit>): Points
    requires forall e <- es :: e.dn != []
    decreases |es|
  {
    if es == [] then t else EditAll(Edited(t, es[0]), es[1..])
  }

  lemma {:induction false} EditKeepsClosed(t: Points, e: Edit)
    requires Closed(t) && e.dn != []
    ensures Closed(Edited(t, e))
  {
    if e.Deletion? {
      InsertClosed(t, e.dn);
    }
  }

  // Every deletion of the run adds the subtree of its object to what is deleted, and nothing else.
  ghost predicate EveryDeletionDeletes(t: Points, es: seq<Edit>)
    requires forall e <- es :: e.dn != []
    decreases |es|
  {
    es == [] ||
    ((es[0].Deletion? ==> AddsSubtree(t, es[0].dn)) && EveryDeletionDeletes(Edited(t, es[0]), es[1..]))
  }

  ghost predicate AddsSubtree(t: Points, dn: Path)
    requires dn != []
  {
    forall y :: Deleted(Insert(t, dn), y) <==> Deleted(t, y) || dn <= y
  }

  // No deletion of the run names the topmost active point, below the first level, of its branch.
  ghost predicate NeverTwice(t: Points, es: seq<Edit>)
    requires forall e <- es :: e.dn != []
    decreases |es|
  {
    es == [] ||
    ((es[0].Deletion? ==> !DeletedTwice(t, es[0].dn)) && NeverTwice(Edited(t, es[0]), es[1..]))
  }

  lemma {:induction false} AddsSubtreeIff(t: Points, dn: Path)
    requires Closed(t) && dn != []
    ensures AddsSubtree(t, dn) <==> !DeletedTwice(t, dn)
  {
    if DeletedTwice(t, dn) {
      InsertDeletesUnlessTwice(t, dn);
      assert dn <= dn;
    } else {
      forall y ensures Deleted(Insert(t, dn), y) <==> Deleted(t, y) || dn <= y {
        InsertExact(t, dn, y);
      }
    }
  }

  // In any run of deletions and creations, every deletion does what it should if and only if none is of a DN that is
  // deleted twice.
  lemma {:induction false} EveryDeletionDeletesIff(t: Points, es: seq<Edit>)
    requires Closed(t) && forall e <- es :: e.dn != []
    ensures EveryDeletionDeletes(t, es) <==> NeverTwice(t, es)
    decreases |es|
  {
    if es != [] {
      EditKeepsClosed(t, es[0]);
      AddsSubtreeIff(t, es[0].dn);
      EveryDeletionDeletesIff(Edited(t, es[0]), es[1..]);
    }
  }

  // As long as nothing is created again either, what is deleted is exactly the subtrees of what was deleted, hidden
  // objects among them or not.
  lemma {:induction false} DeletedIsWhatWasDeleted(t: Points, es: seq<Edit>, y: Path)
    requires Closed(t)
    requires (forall e <- es :: e.dn != [] && e.Deletion?) && NeverTwice(t, es)
    ensures Deleted(EditAll(t, es), y) <==> Deleted(t, y) || exists e :: e in es && e.dn <= y
    decreases |es|
  {
    if es != [] {
      EditKeepsClosed(t, es[0]);
      InsertExact(t, es[0].dn, y);
      assert es[0].dn <= es[0].dn;
      DeletedIsWhatWasDeleted(Edited(t, es[0]), es[1..], y);
      assert es == [es[0]] + es[1..];
    }
  }

  // At no moment of the run does one recorded deletion lie inside another.
  ghost predicate NeverNests(t: Points, es: seq<Edit>)
    requires forall e <- es :: e.dn != []
    decreases |es|
  {
    Antichain(t) && (es == [] || NeverNests(Edited(t, es[0]), es[1..]))
  }

  // No deletion of the run adds a path that was not there below an active point other than the first part.
  ghost predicate NeverGraftsBelow(t: Points, es: seq<Edit>)
    requires forall e <- es :: e.dn != []
    decreases |es|
  {
    es == [] ||
    ((es[0].Deletion? ==> IsActive(t, es[0].dn[..1]) || es[0].dn in t || !DeletedAbove(t, es[0].dn))
     && NeverGraftsBelow(Edited(t, es[0]), es[1..]))
  }

  // In any run of deletions and creations, deletions never nest if and only if none is grafted below another.
  lemma {:induction false} DeletionsNeverNest(t: Points, es: seq<Edit>)
    requires Closed(t) && Antichain(t) && forall e <- es :: e.dn != []
    ensures NeverNests(t, es) <==> NeverGraftsBelow(t, es)
    decreases |es|
  {
    if es != [] {
      EditKeepsClosed(t, es[0]);
      if es[0].Deletion? {
        InsertKeepsAntichain(t, es[0].dn);
      } else {
        RemoveKeepsAntichain(t, es[0].dn);
      }
      if Antichain(Edited(t, es[0])) {
        DeletionsNeverNest(Edited(t, es[0]), es[1..]);
      }
    }
  }

  // Deleting an object and then a hidden child that has no point yet nests them.
  lemma {:induction false} HiddenChildNests(dn: Path, part: string)
    requires |dn| >= 2
    ensures !NeverNests(map[], [Deletion(dn), Deletion(dn + [part])])
  {
    var es := [Deletion(dn), Deletion(dn + [part])];
    var t := Insert(map[], dn);
    InsertClosed(map[], dn);
    assert es[1..] == [Deletion(dn + [part])];
    assert dn == dn[..|dn|] && dn < dn + [part];
    assert forall r :: IsActive(t, r) <==> r == dn;
    assert dn <= dn + [part] && |dn| < |dn + [part]| && IsActive(t, dn);
    assert DeletedAbove(t, dn + [part]);
    assert (dn + [part])[..1] == dn[..1] != dn;
    assert Antichain(t);
    DeletionsNeverNest(t, es[1..]);
  }

  // A run that deletes only objects the transaction still sees meets both conditions.
  ghost predicate DeletesVisible(t: Points, es: seq<Edit>)
    requires forall e <- es :: e.dn != []
    decreases |es|
  {
    es == [] ||
    ((es[0].Deletion? ==> !Deleted(t, es[0].dn)) && DeletesVisible(Edited(t, es[0]), es[1..]))
  }

  lemma {:induction false} VisibleDeletionsAreSafe(t: Points, es: seq<Edit>)
    requires (forall e <- es :: e.dn != []) && DeletesVisible(t, es)
    ensures NeverTwice(t, es) && NeverGraftsBelow(t, es)
    decreases |es|
  {
    if es != [] {
      assert es[0].dn <= es[0].dn;
      assert forall r :: r < es[0].dn && IsActive(t, r) ==> r <= es[0].dn;
      VisibleDeletionsAreSafe(Edited(t, es[0]), es[1..]);
    }
  }

  // t is the points with the prefixes of dn shorter than j added.
  ghost predicate GraftedBelow(points: Points, dn: Path, j: nat, t: Points) {
    && (forall p :: p in t <==> p in points || exists k :: 1 <= k < j && k <= |dn| && p == dn[..k])
    && (forall p <- t :: t[p] == if p in points then points[p] else Plain)
  }

  lemma {:induction false} GraftOne(points: Points, dn: Path, j: nat, t: Points)
    requires GraftedBelow(points, dn, j, t) && 1 <= j <= |dn| && dn[..j] !in points
    ensures GraftedBelow(points, dn, j + 1, t[dn[..j] := Plain])
  {
  }

  lemma {:induction false} GraftLast(points: Points, dn: Path, t: Points)
    requires dn != [] && GraftedBelow(points, dn, |dn| + 1, t)
    ensures t[dn := Active] == Grafted(points, dn)
  {
    assert dn == dn[..|dn|];
    assert forall p :: p in t[dn := Active] <==> p in Grafted(points, dn);
  }

  // ------------------------------------------------------------------ the list itself

  class DeletedObjectsList {
    var points: Points

    ghost predicate Valid()
      reads this
    {
      Closed(points)
    }

    constructor ()
      ensures Valid() && points == map[]
    {
      points := map[];
    }

    // Walk down from the first part until an active point, the end of the recorded branch or the end of the DN.
    method IsDeleted(dn: Path) returns (deleted: bool)
      requires Valid() && dn != []
      ensures deleted <==> Deleted(points, dn)
    {
      deleted := false;
      var i := 1;
      while i <= |dn|
        invariant 1 <= i <= |dn| + 1
        invariant forall j :: 1 <= j < i ==> !IsActive(points, dn[..j])
      {
        if dn[..i] !in points {
          NothingActiveBeyond(points, dn, i);
          return;
        }
        if IsActive(points, dn[..i]) {
          assert dn[..i] <= dn;
          deleted := true;
          return;
        }
        i := i + 1;
      }
      NothingActive(points, dn);
    }

    // Walk down from the second part while parts are found, noting whether an active point was met.
    method WalkDown(dn: Path) returns (found: nat, activeFound: bool)
      requires Valid() && dn != [] && dn[..1] in points
      ensures 1 <= found <= |dn| && forall j :: 1 <= j <= found ==> dn[..j] in points
      ensures found < |dn| ==> forall j :: found < j <= |dn| ==> dn[..j] !in points
      ensures found == |dn| ==> (activeFound <==> MeetsActive(points, dn))
    {
      activeFound := false;
      found := 1;
      while found < |dn|
        invariant 1 <= found <= |dn|
        invariant forall j :: 1 <= j <= found ==> dn[..j] in points
        invariant activeFound <==> exists j :: 2 <= j <= found && IsActive(points, dn[..j])
      {
        if dn[..found + 1] !in points {
          NoneFrom(points, dn, found + 1);
          return;
        }
        if IsActive(points, dn[..found + 1]) {
          activeFound := true;
        }
        found := found + 1;
      }
    }

    method InsertPoint(dn: Path)
      requires Valid() && dn != []
      modifies this
      ensures Valid() && points == Insert(old(points), dn)
    {
      InsertClosed(points, dn);
      assert dn == dn[..|dn|];
      if dn[..1] !in points {
        NoneFrom(points, dn, 1);
        AddFrom(dn, 1);
      } else if !IsActive(points, dn[..1]) {
        var found, activeFound := WalkDown(dn);
        if found < |dn| {
          AddFrom(dn, found + 1);
        } else if activeFound {
          points := points[dn := Dormant];
        } else {
          points := Silenced(points, dn)[dn := Active];
        }
      }
    }

    // Add the parts from number i on; the last becomes an active point.
    method AddFrom(dn: Path, i: nat)
      requires Valid() && 1 <= i <= |dn|
      requires forall j :: 1 <= j < i ==> dn[..j] in points
      requires forall j :: i <= j <= |dn| ==> dn[..j] !in points
      modifies this
      ensures points == Grafted(old(points), dn)
    {
      var t := points;
      for j := i to |dn| + 1
        invariant points == old(points) && GraftedBelow(points, dn, j, t)
      {
        GraftOne(points, dn, j, t);
        t := t[dn[..j] := Plain];
      }
      GraftLast(points, dn, t);
      points := t[dn := Active];
    }

    method RemovePoint(dn: Path)
      requires Valid() && dn != []
      modifies this
      ensures Valid() && points == Remove(old(points), dn)
    {
      if IsActive(points, dn) {
        var woken := WakeBelow(dn);
        points := woken[dn := Dormant];
      }
    }

    method IsTopmost(dn: Path, p: Path) returns (topmost: bool)
      ensures topmost <==> TopmostDormant(points, dn, p)
    {
      topmost := dn <= p && IsDormant(points, p);
      if topmost {
        TopmostByLength(points, dn, p);
        for k := |dn| to |p|
          invariant topmost <==> forall j :: |dn| <= j < k ==> !IsDormant(points, p[..j])
        {
          if IsDormant(points, p[..k]) {
            topmost := false;
          }
        }
      }
    }

    // Visit the subtree: the topmost dormant point of each branch becomes active.
    method WakeBelow(dn: Path) returns (woken: Points)
      requires Valid()
      ensures woken == Woken(points, dn)
    {
      woken := points;
      var todo := points.Keys;
      while todo != {}
        invariant todo <= points.Keys && WokenExcept(points, dn, todo, woken)
        decreases |todo|
      {
        var p: Path :| p in todo;
        var topmost := IsTopmost(dn, p);
        WakeOne(points, dn, todo, woken, p);
        todo := todo - {p};
        if topmost {
          woken := woken[p := Active];
        }
      }
      assert woken == Woken(points, dn);
    }
  }

  // Everything but the paths in todo has been visited.
  ghost predicate WokenExcept(t: Points, dn: Path, todo: set<Path>, woken: Points) {
    && woken.Keys == t.Keys
    && forall p <- t :: woken[p] == if p in todo then t[p] else Woken(t, dn)[p]
  }

  lemma {:induction false} WakeOne(t: Points, dn: Path, todo: set<Path>, woken: Points, p: Path)
    requires p in t && p in todo && WokenExcept(t, dn, todo, woken)
    ensures WokenExcept(t, dn, todo - {p}, if TopmostDormant(t, dn, p) then woken[p := Active] else woken)
  {
  }

  lemma {:induction false} TopmostByLength(t: Points, dn: Path, p: Path)
    requires dn <= p && IsDormant(t, p)
    ensures TopmostDormant(t, dn, p) <==> forall j :: |dn| <= j < |p| ==> !IsDormant(t, p[..j])
  {
    forall j | |dn| <= j < |p| ensures dn <= p[..j] < p {
    }
    forall r | dn <= r < p ensures r == p[..|r|] {
    }
  }

  lemma {:induction false} NothingActive(t: Points, dn: Path)
    requires forall j :: 1 <= j <= |dn| ==> !IsActive(t, dn[..j])
    requires Closed(t)
    ensures !Deleted(t, dn)
  {
    assert forall r :: IsActive(t, r) && r <= dn ==> r == dn[..|r|];
  }

  lemma {:induction false} NoneFrom(t: Points, dn: Path, i: nat)
    requires Closed(t) && 1 <= i <= |dn| && dn[..i] !in t
    ensures forall j :: i <= j <= |dn| ==> dn[..j] !in t
  {
    forall j | i <= j <= |dn| ensures dn[..j] !in t {
      NothingBelow(t, dn[..i], dn[..j]);
    }
  }

  lemma {:induction false} NothingActiveBeyond(t: Points, dn: Path, i: nat)
    requires Closed(t) && 1 <= i <= |dn| && dn[..i] !in t
    requires forall j :: 1 <= j < i ==> !IsActive(t, dn[..j])
    ensures !Deleted(t, dn)
  {
    NoneFrom(t, dn, i);
    NothingActive(t, dn);
  }
}
