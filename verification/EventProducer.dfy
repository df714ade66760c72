/**
 The producer's side: the list of filters it keeps and the reference count on each event it sends.

 Filters are added at the end of the list.  Removal erases the first entry with the same consumer and event
 type, whatever its filter; so the list follows the router exactly as long as that entry is the one meant.
*/
module EventProducerModule {
  import opened Common
  import opened EventRouterSpec

  predicate SameKey(a: Sub, b: Sub) {
    a.consumer == b.consumer && a.eventType == b.eventType
  }

  // The list after erasing the first entry with s's consumer and event type.
  function RemoveFirst(list: seq<Sub>, s: Sub): seq<Sub> {
    if list == [] then []
    else if SameKey(list[0], s) then list[1..]
    else [list[0]] + RemoveFirst(list[1..], s)
  }

  function FirstLike(list: seq<Sub>, s: Sub): Option<Sub> {
    if list == [] then None else if SameKey(list[0], s) then Some(list[0]) else FirstLike(list[1..], s)
  }

  // What erasing takes away is the first entry with the same key, and nothing if there is none.
  lemma {:induction false} RemoveTakesFirstLike(list: seq<Sub>, s: Sub)
    ensures var first := FirstLike(list, s);
      && (first.Some? ==> first.value in list && SameKey(first.value, s)
                          && multiset(RemoveFirst(list, s)) == multiset(list) - multiset{first.value})
      && (first.None? ==> RemoveFirst(list, s) == list && forall x :: x in list ==> !SameKey(x, s))
  {
    if list != [] {
      RemoveTakesFirstLike(list[1..], s);
      assert list == [list[0]] + list[1..];
    }
  }

  // Removing a filter removes that filter if and only if it is the first of its consumer and event type.
  lemma {:induction false} RemovalIsExact(list: seq<Sub>, s: Sub)
    requires s in list
    ensures multiset(RemoveFirst(list, s)) == multiset(list) - multiset{s} <==> FirstLike(list, s) == Some(s)
  {
    RemoveTakesFirstLike(list, s);
    var first := FirstLike(list, s);
    assert SameKey(s, s);
    if first.value != s {
      assert (multiset(list) - multiset{first.value})[s] == multiset(list)[s];
      assert (multiset(list) - multiset{s})[s] == multiset(list)[s] - 1;
    }
  }

  // ------------------------------------------------------------------ the life of an event

  // refs counts the creator and every notification sent; the event is deleted when it reaches zero.
  datatype Life = Life(refs: int, freed: bool)

  datatype Move = Sent(accepted: bool) | Done | Released

  function AddRef(l: Life): Life {
    Life(l.refs + 1, l.freed)
  }

  function ReleaseRef(l: Life): Life {
    Life(l.refs - 1, l.freed || l.refs - 1 == 0)
  }

  function LifeAfter(moves: seq<Move>): Life {
    if moves == [] then Life(1, false)
    else
      var l := LifeAfter(moves[..|moves| - 1]);
      if moves[|moves| - 1].Sent? then AddRef(l) else ReleaseRef(l)
  }

  function Count(moves: seq<Move>, m: Move): nat {
    if moves == [] then 0
    else Count(moves[..|moves| - 1], m) + if moves[|moves| - 1] == m then 1 else 0
  }

  // The creator sends, then releases once; the router returns accepted notifications only, each once.
  predicate Legal(moves: seq<Move>) {
    moves == [] ||
    (var before := moves[..|moves| - 1];
     Legal(before) &&
     match moves[|moves| - 1]
     case Sent(_) => Count(before, Released) == 0
     case Done => Count(before, Done) < Count(before, Sent(true))
     case Released => Count(before, Released) == 0)
  }

  lemma {:induction false} RefsCount(moves: seq<Move>)
    requires Legal(moves)
    ensures var l := LifeAfter(moves);
      && l.refs == 1 + Count(moves, Sent(true)) + Count(moves, Sent(false))
                   - Count(moves, Done) - Count(moves, Released)
      && Count(moves, Released) <= 1 && Count(moves, Done) <= Count(moves, Sent(true))
      && (l.freed <==> l.refs == 0)
  {
    if moves != [] {
      RefsCount(moves[..|moves| - 1]);
    }
  }

  // The event is deleted exactly when its creator has let go, every notification was accepted by the router and
  // every one has come back.
  lemma {:induction false} FreedExactlyWhenAllReturned(moves: seq<Move>)
    requires Legal(moves)
    ensures LifeAfter(moves).freed <==>
      Count(moves, Released) == 1 && Count(moves, Sent(false)) == 0 && Count(moves, Done) == Count(moves, Sent(true))
  {
    RefsCount(moves);
  }

  // Nothing is ever done to a deleted event.
  lemma {:induction false} NeverUsedAfterFree(moves: seq<Move>, m: Move)
    requires Legal(moves + [m])
    ensures !LifeAfter(moves).freed
  {
    assert (moves + [m])[..|moves|] == moves;
    assert (moves + [m])[|moves|] == m;
    FreedExactlyWhenAllReturned(moves);
  }

  // ------------------------------------------------------------------ the producer itself

  // The filters an event matches, in list order.
  function Matching(list: seq<Sub>, isMatch: nat -> bool): seq<Sub> {
    if list == [] then []
    else (if isMatch(list[0].filter) then [list[0]] else []) + Matching(list[1..], isMatch)
  }

  // Every filter that matches is among them as often as it is on the list, and no other.
  lemma {:induction false} MatchingIs(list: seq<Sub>, isMatch: nat -> bool, s: Sub)
    ensures multiset(Matching(list, isMatch))[s] == if isMatch(s.filter) then multiset(list)[s] else 0
  {
    if list != [] {
      MatchingIs(list[1..], isMatch, s);
      assert list == [list[0]] + list[1..];
    }
  }

  // And they keep their order.
  lemma {:induction false} MatchingInOrder(a: seq<Sub>, b: seq<Sub>, isMatch: nat -> bool)
    ensures Matching(a + b, isMatch) == Matching(a, isMatch) + Matching(b, isMatch)
  {
    if a == [] {
      assert a + b == b;
    } else {
      var ab := a + b;
      assert ab != [] && ab[0] == a[0] && ab[1..] == a[1..] + b;
      MatchingInOrder(a[1..], b, isMatch);
      ConcatAssoc(if isMatch(a[0].filter) then [a[0]] else [], Matching(a[1..], isMatch), Matching(b, isMatch));
    }
  }

  method Matches(list: seq<Sub>, isMatch: nat -> bool) returns (matches: seq<Sub>)
    ensures matches == Matching(list, isMatch)
  {
    matches := [];
    for i := 0 to |list|
      invariant matches + Matching(list[i..], isMatch) == Matching(list, isMatch)
    {
      if isMatch(list[i].filter) {
        matches := matches + [list[i]];
      }
    }
  }

  // One notification for each match, with the router's answers.
  function SentFor(matches: seq<Sub>, answers: Sub -> bool): seq<Move> {
    seq(|matches|, i requires 0 <= i < |matches| => Sent(answers(matches[i])))
  }

  lemma {:induction false} LifeSnoc(moves: seq<Move>, m: Move)
    ensures LifeAfter(moves + [m]) == if m.Sent? then AddRef(LifeAfter(moves)) else ReleaseRef(LifeAfter(moves))
  {
    assert (moves + [m])[..|moves|] == moves;
  }

  lemma {:induction false} SentForSnoc(matches: seq<Sub>, i: nat, answers: Sub -> bool)
    requires i < |matches|
    ensures SentFor(matches[..i + 1], answers) == SentFor(matches[..i], answers) + [Sent(answers(matches[i]))]
  {
  }

  // The histories after more has been done to an event.
  function Extended(moves: map<nat, seq<Move>>, event: nat, more: seq<Move>): map<nat, seq<Move>> {
    moves[event := (if event in moves then moves[event] else []) + more]
  }

  lemma {:induction false} ExtendedTwice(moves: map<nat, seq<Move>>, event: nat, more: seq<Move>, rest: seq<Move>)
    ensures Extended(Extended(moves, event, more), event, rest) == Extended(moves, event, more + rest)
  {
    ConcatAssoc(if event in moves then moves[event] else [], more, rest);
  }

  // The stored counts are those of the events' histories, and an event is stored exactly until it is freed.
  ghost predicate Counts(refs: map<nat, int>, moves: map<nat, seq<Move>>) {
    && (forall e <- refs :: e in moves)
    && (forall e <- moves :: if LifeAfter(moves[e]).freed then e !in refs
                             else e in refs && refs[e] == LifeAfter(moves[e]).refs)
  }

  class EventProducer {
    var consumers: seq<Sub>
    // Reference counts of the events not yet deleted.
    var refs: map<nat, int>
    // Everything that was done to each event ever created.
    ghost var moves: map<nat, seq<Move>>

    ghost predicate Valid()
      reads this
    {
      Counts(refs, moves)
    }

    constructor ()
      ensures Valid() && consumers == [] && moves == map[]
    {
      consumers, refs, moves := [], map[], map[];
    }

    method OnAddFilter(s: Sub, valid: bool) returns (accepted: bool)
      modifies this`consumers
      ensures accepted == valid
      ensures consumers == if valid then old(consumers) + [s] else old(consumers)
    {
      if valid {
        consumers := consumers + [s];
      }
      accepted := valid;
    }

    method OnRemoveFilter(s: Sub)
      modifies this`consumers
      ensures consumers == RemoveFirst(old(consumers), s)
    {
      var i := 0;
      while i < |consumers| && !SameKey(consumers[i], s)
        invariant 0 <= i <= |consumers|
        invariant consumers[..i] + RemoveFirst(consumers[i..], s) == RemoveFirst(consumers, s)
      {
        i := i + 1;
      }
      if i < |consumers| {
        consumers := consumers[..i] + consumers[i + 1..];
      }
    }

    method OnClearAll()
      modifies this`consumers
      ensures consumers == []
    {
      consumers := [];
    }

    method Create(event: nat)
      requires Valid() && event !in moves
      modifies this`refs, this`moves
      ensures Valid() && event in refs && moves == Extended(old(moves), event, [])
    {
      refs := refs[event := 1];
      moves := Extended(moves, event, []);
    }

    // A reference is taken before the router is asked, and whatever the router answers.
    method NotifyOne(event: nat, s: Sub, answers: Sub -> bool) returns (accepted: bool)
      requires Valid() && event in refs
      modifies this`refs, this`moves
      ensures Valid() && event in refs && accepted == answers(s)
      ensures moves == Extended(old(moves), event, [Sent(accepted)])
    {
      refs := refs[event := refs[event] + 1];
      accepted := answers(s);
      LifeSnoc(moves[event], Sent(accepted));
      moves := Extended(moves, event, [Sent(accepted)]);
    }

    // Take a reference and notify for each matching filter; nothing is done about refusals.
    method Push(event: nat, isMatch: nat -> bool, answers: Sub -> bool)
      requires Valid() && event in refs
      modifies this`refs, this`moves
      ensures Valid() && event in refs
      ensures moves == Extended(old(moves), event, SentFor(Matching(consumers, isMatch), answers))
    {
      var matches := Matches(consumers, isMatch);
      ghost var before := moves;
      assert before[event] + [] == before[event];
      assert SentFor(matches[..0], answers) == [] && Extended(before, event, []) == before;
      for i := 0 to |matches|
        invariant Valid() && event in refs
        invariant moves == Extended(before, event, SentFor(matches[..i], answers))
      {
        var accepted := NotifyOne(event, matches[i], answers);
        ExtendedTwice(before, event, SentFor(matches[..i], answers), [Sent(accepted)]);
        SentForSnoc(matches, i, answers);
      }
      assert matches[..|matches|] == matches;
    }

    // One reference less; at zero the event is deleted.
    method ReleaseRefOf(event: nat, ghost m: Move)
      requires Valid() && event in refs && !m.Sent?
      modifies this`refs, this`moves
      ensures Valid() && moves == Extended(old(moves), event, [m])
    {
      LifeSnoc(moves[event], m);
      refs := refs[event := refs[event] - 1];
      if refs[event] == 0 {
        refs := refs - {event};
      }
      moves := Extended(moves, event, [m]);
    }

    method OnDoneWithValue(event: nat)
      requires Valid() && event in refs
      modifies this`refs, this`moves
      ensures Valid() && moves == Extended(old(moves), event, [Done])
    {
      ReleaseRefOf(event, Done);
    }

    // Create the event, push it, let go of it.
    method SendEvent(event: nat, isMatch: nat -> bool, answers: Sub -> bool)
      requires Valid() && event !in moves
      modifies this`refs, this`moves
      ensures Valid()
      ensures moves == Extended(old(moves), event, SentFor(Matching(consumers, isMatch), answers) + [Released])
      ensures event in refs <==> Matching(consumers, isMatch) != []
    {
      ghost var before := moves;
      ghost var sent := SentFor(Matching(consumers, isMatch), answers);
      Create(event);
      Push(event, isMatch, answers);
      ExtendedTwice(before, event, [], sent);
      assert [] + sent == sent;
      ReleaseRefOf(event, Released);
      ExtendedTwice(before, event, sent, [Released]);
      SentAndReleased(Matching(consumers, isMatch), answers);
      assert moves[event] == sent + [Released];
    }
  }

  // What is left of an event once it has been sent: one reference for each notification.
  lemma {:induction false} SentAndReleased(matches: seq<Sub>, answers: Sub -> bool)
    ensures LifeAfter(SentFor(matches, answers)) == Life(1 + |matches|, false)
    ensures LifeAfter(SentFor(matches, answers) + [Released]) == Life(|matches|, matches == [])
  {
    LifeSnoc(SentFor(matches, answers), Released);
    if matches != [] {
      var n := |matches| - 1;
      assert SentFor(matches, answers)[..n] == SentFor(matches[..n], answers);
      SentAndReleased(matches[..n], answers);
    }
  }
}
