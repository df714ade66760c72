/**
 What the list of deletion points remembers.  A deletion is recorded even where an ancestor hides the object, and no
 later deletion or creation elsewhere drops the record; so when the ancestor is created again the object stays deleted.
*/
module RememberedDeletions {
  import opened Common
  import opened DeletionPoints

  // A point at dn, active or dormant.
  predicate HasPoint(t: Points, dn: Path) {
    dn in t && t[dn] != Plain
  }

  // Deleting records exactly one point more, unless a deletion of the whole first level hides everything.
  lemma {:induction false} InsertRecords(t: Points, dn: Path, x: Path)
    requires dn != []
    ensures HasPoint(Insert(t, dn), x) <==> HasPoint(t, x) || (x == dn && !IsActive(t, dn[..1]))
  {
    assert dn == dn[..|dn|];
  }

  // Creating drops no point and adds none.
  lemma {:induction false} RemoveRecordsNothing(t: Points, dn: Path, x: Path)
    ensures HasPoint(Remove(t, dn), x) <==> HasPoint(t, x)
  {
  }

  // Creating an object that is not an active point changes nothing at all.
  lemma {:induction false} RemoveElsewhere(t: Points, dn: Path)
    requires !IsActive(t, dn)
    ensures Remove(t, dn) == t
  {
  }

  // In some step of the run x was deleted while its first level was not.
  ghost predicate Recorded(t: Points, es: seq<Edit>, x: Path)
    requires forall e <- es :: e.dn != []
    decreases |es|
  {
    es != [] &&
    ((es[0].Deletion? && es[0].dn == x && !IsActive(t, x[..1])) || Recorded(Edited(t, es[0]), es[1..], x))
  }

  // After any run of deletions and creations the points are exactly those of the start and the deletions recorded.
  lemma {:induction false} PointsAreTheRecorded(t: Points, es: seq<Edit>, x: Path)
    requires forall e <- es :: e.dn != []
    ensures HasPoint(EditAll(t, es), x) <==> HasPoint(t, x) || Recorded(t, es, x)
    decreases |es|
  {
    if es != [] {
      if es[0].Deletion? {
        InsertRecords(t, es[0].dn, x);
      } else {
        RemoveRecordsNothing(t, es[0].dn, x);
      }
      PointsAreTheRecorded(Edited(t, es[0]), es[1..], x);
    }
  }

  // Creating again the topmost deleted object after any run: below it exactly the subtrees of the deletions recorded in
  // the run stay deleted, hidden at the time or not, and elsewhere nothing changes.
  lemma {:induction false} RecreatedAfterRun(es: seq<Edit>, top: Path, y: Path)
    requires forall e <- es :: e.dn != []
    requires var t := EditAll(map[], es); IsActive(t, top) && !DeletedAbove(t, top)
    ensures var t := EditAll(map[], es);
      Deleted(Remove(t, top), y) <==>
        if top <= y then exists x :: top < x <= y && Recorded(map[], es, x) else Deleted(t, y)
  {
    var t := EditAll(map[], es);
    RemoveExact(t, top, y);
    forall x ensures HasPoint(t, x) <==> Recorded(map[], es, x) {
      PointsAreTheRecorded(map[], es, x);
    }
    if PointBetween(t, top, y) {
      var r :| top < r <= y && r in t && t[r] != Plain;
      assert HasPoint(t, r) && Recorded(map[], es, r);
    }
    if x :| top < x <= y && Recorded(map[], es, x) {
      assert HasPoint(t, x);
      assert PointBetween(t, top, y);
    }
  }

  // In particular: deleting an object hidden by a higher one and then creating the higher one leaves it deleted.
  lemma {:induction false} HiddenDeletionIsRemembered(t: Points, dn: Path, top: Path, y: Path)
    requires Closed(t) && IsActive(t, top) && !DeletedAbove(t, top)
    requires top < dn <= y && !IsActive(t, dn[..1])
    ensures Deleted(Remove(Insert(t, dn), top), y)
  {
    var u := Insert(t, dn);
    assert |top| > 0 && !(dn <= top);
    InsertKeepsOthers(t, dn, top);
    forall r | r < top ensures !IsActive(u, r) {
      InsertKeepsOthers(t, dn, r);
    }
    InsertRecords(t, dn, dn);
    RemoveExact(u, top, y);
    assert PointBetween(u, top, y);
  }

  // Under a deleted first level nothing is recorded.
  lemma {:induction false} FirstLevelForgets(t: Points, dn: Path)
    requires |dn| >= 2 && IsActive(t, dn[..1])
    ensures Insert(t, dn) == t
  {
  }

  // Deleting [a], then [a, b], then creating [a]: [a, b] is visible again.
  lemma {:induction false} FirstLevelForgetsReached(a: string, b: string)
    ensures var t := Insert(Insert(map[], [a]), [a, b]);
      Deleted(t, [a, b]) && !Deleted(Remove(t, [a]), [a, b])
  {
    var once := Insert(map[], [a]);
    assert [a] == [a][..1] == [a][..|[a]|] && [a, b][..1] == [a];
    assert [a] in once && IsActive(once, [a]);
    FirstLevelForgets(once, [a, b]);
    assert forall r :: IsActive(once, r) ==> r == [a];
    assert forall r :: r in once ==> r == [a];
    assert [a] <= [a, b];
    RemoveExact(once, [a], [a, b]);
  }
}
