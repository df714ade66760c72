/**
 The life of an event in runs of the router.

 A run mixes any calls of the router with the producers' own releases.  What happens to one event in it is read off the
 run: each notify, accepted or refused, each value handed back, and the release.  That the router hands back accepted
 notifications only, and each once, is proved here and not assumed; of the producer it is assumed what sendEvent does,
 that an event is not sent or released any more once it has been released.
*/
module EventLife {
  import opened Common
  import opened EventRouterSpec
  import opened EventProducerModule
  import opened ProducerLists

  datatype Act = Call(op: Op) | Release(producer: nat, value: int)

  function StepAct(r: Router, a: Act): Router {
    if a.Call? then Step(r, a.op).router else r
  }

  function After(acts: seq<Act>): Router {
    if acts == [] then Init() else StepAct(After(acts[..|acts| - 1]), acts[|acts| - 1])
  }

  function Ops(acts: seq<Act>): seq<Op> {
    if acts == [] then []
    else Ops(acts[..|acts| - 1]) + if acts[|acts| - 1].Call? then [acts[|acts| - 1].op] else []
  }

  // The router's part of a run is a run of the router.
  lemma {:induction false} AfterIsRun(acts: seq<Act>)
    ensures After(acts) == Run(Init(), Ops(acts))
  {
    if acts != [] {
      var n := |acts| - 1;
      AfterIsRun(acts[..n]);
      if acts[n].Call? {
        RunSnoc(Init(), Ops(acts[..n]), acts[n].op);
      } else {
        assert Ops(acts[..n]) + [] == Ops(acts[..n]);
      }
    }
  }

  predicate IsOf(t: Ticket, p: nat, v: int) {
    t.producer == p && t.value == v
  }

  // What one act does to the event v of producer p.
  function MoveOf(r: Router, a: Act, p: nat, v: int): seq<Move> {
    match a
    case Release(q, w) => if q == p && w == v then [Released] else []
    case Call(op) =>
      if op.Notify? && op.producer == p && op.value == v then [Sent(Step(r, op).code == Ok)]
      else if op.Return? && Step(r, op).code == Ok && op.ticket < |r.tickets| && IsOf(r.tickets[op.ticket], p, v) then
        [Done]
      else []
  }

  function MovesOf(acts: seq<Act>, p: nat, v: int): seq<Move> {
    if acts == [] then []
    else
      MovesOf(acts[..|acts| - 1], p, v) + MoveOf(After(acts[..|acts| - 1]), acts[|acts| - 1], p, v)
  }

  predicate Sends(a: Act, p: nat, v: int) {
    a.Call? && a.op.Notify? && a.op.producer == p && a.op.value == v
  }

  // The router refuses a notify of the event: its producer is not registered or the router fails.
  predicate Refuses(r: Router, a: Act, p: nat, v: int) {
    Sends(a, p, v) && (p !in r.types || !a.op.ok)
  }

  // Once the producer has released the event it neither sends nor releases it again.
  ghost predicate ReleasedLast(acts: seq<Act>, p: nat, v: int) {
    forall i, j :: 0 <= i < j < |acts| && acts[i] == Release(p, v) ==> acts[j] != Release(p, v) && !Sends(acts[j], p, v)
  }

  // ------------------------------------------------------------------ counting

  function CountTickets(tickets: seq<Ticket>, p: nat, v: int): nat {
    if tickets == [] then 0
    else CountTickets(tickets[..|tickets| - 1], p, v) + if IsOf(tickets[|tickets| - 1], p, v) then 1 else 0
  }

  function CountReturned(tickets: seq<Ticket>, p: nat, v: int): nat {
    if tickets == [] then 0
    else
      var last := tickets[|tickets| - 1];
      CountReturned(tickets[..|tickets| - 1], p, v) + if IsOf(last, p, v) && last.stage.Returned? then 1 else 0
  }

  ghost predicate AllReturned(tickets: seq<Ticket>, p: nat, v: int) {
    forall i :: 0 <= i < |tickets| && IsOf(tickets[i], p, v) ==> tickets[i].stage.Returned?
  }

  lemma {:induction false} ReturnedAtMost(tickets: seq<Ticket>, p: nat, v: int)
    ensures CountReturned(tickets, p, v) <= CountTickets(tickets, p, v)
    ensures CountReturned(tickets, p, v) == CountTickets(tickets, p, v) <==> AllReturned(tickets, p, v)
  {
    if tickets != [] {
      var n := |tickets| - 1;
      ReturnedAtMost(tickets[..n], p, v);
      assert AllReturned(tickets, p, v) <==>
        AllReturned(tickets[..n], p, v) && (IsOf(tickets[n], p, v) ==> tickets[n].stage.Returned?);
    }
  }

  // A ticket moves to another stage.
  lemma {:induction false} StageCounts(tickets: seq<Ticket>, k: nat, stage: Stage, p: nat, v: int)
    requires k < |tickets|
    ensures var after := tickets[k := tickets[k].(stage := stage)];
      && CountTickets(after, p, v) == CountTickets(tickets, p, v)
      && CountReturned(after, p, v) + (if IsOf(tickets[k], p, v) && tickets[k].stage.Returned? then 1 else 0)
           == CountReturned(tickets, p, v) + (if IsOf(tickets[k], p, v) && stage.Returned? then 1 else 0)
  {
    var n := |tickets| - 1;
    var after := tickets[k := tickets[k].(stage := stage)];
    if k < n {
      assert after[..n] == tickets[..n][k := tickets[k].(stage := stage)];
      StageCounts(tickets[..n], k, stage, p, v);
    } else {
      assert after[..n] == tickets[..n];
    }
  }

  lemma {:induction false} CountSnoc(moves: seq<Move>, more: seq<Move>, m: Move)
    requires |more| <= 1
    ensures Count(moves + more, m) == Count(moves, m) + if more == [m] then 1 else 0
  {
    if more == [] {
      assert moves + more == moves;
    } else {
      assert more == [more[0]] && (moves + more)[..|moves|] == moves;
    }
  }

  lemma {:induction false} StepCounts(r: Router, a: Act, p: nat, v: int)
    ensures var t, t' := r.tickets, StepAct(r, a).tickets; var m := MoveOf(r, a, p, v);
      && CountTickets(t', p, v) == CountTickets(t, p, v) + (if m == [Sent(true)] then 1 else 0)
      && CountReturned(t', p, v) == CountReturned(t, p, v) + (if m == [Done] then 1 else 0)
  {
    if a.Call? {
      var op := a.op;
      match op {
        case Notify(q, s, w, _) => assert (r.tickets + [Ticket(q, s, w, Queued)])[..|r.tickets|] == r.tickets;
        case Deliver(k) =>
          if Step(r, op).code == Ok {
            StageCounts(r.tickets, k, Handled(r.tickets[k].sub in r.subs), p, v);
          }
        case Return(k) =>
          if Step(r, op).code == Ok {
            StageCounts(r.tickets, k, Returned(r.tickets[k].stage.called), p, v);
          }
        case _ =>
      }
    }
  }

  lemma {:induction false} LastMoveCounts(acts: seq<Act>, p: nat, v: int, m: Move)
    requires acts != []
    ensures var before, last := acts[..|acts| - 1], acts[|acts| - 1];
      Count(MovesOf(acts, p, v), m) ==
        Count(MovesOf(before, p, v), m) + if MoveOf(After(before), last, p, v) == [m] then 1 else 0
  {
    var before, last := acts[..|acts| - 1], acts[|acts| - 1];
    MoveCases(After(before), last, p, v);
    CountSnoc(MovesOf(before, p, v), MoveOf(After(before), last, p, v), m);
  }

  lemma {:induction false} LastActCounts(acts: seq<Act>, p: nat, v: int)
    requires acts != []
    ensures var before := acts[..|acts| - 1]; var moves, moves' := MovesOf(before, p, v), MovesOf(acts, p, v);
      var tickets, tickets' := After(before).tickets, After(acts).tickets;
      && Count(moves', Sent(true)) - Count(moves, Sent(true))
           == CountTickets(tickets', p, v) - CountTickets(tickets, p, v)
      && Count(moves', Done) - Count(moves, Done) == CountReturned(tickets', p, v) - CountReturned(tickets, p, v)
  {
    LastMoveCounts(acts, p, v, Sent(true));
    LastMoveCounts(acts, p, v, Done);
    StepCounts(After(acts[..|acts| - 1]), acts[|acts| - 1], p, v);
  }

  // In every run, the notifications sent and accepted are the router's tickets for the event, and those that came back
  // are the tickets returned.
  lemma {:induction false} MovesCount(acts: seq<Act>, p: nat, v: int)
    ensures Count(MovesOf(acts, p, v), Sent(true)) == CountTickets(After(acts).tickets, p, v)
    ensures Count(MovesOf(acts, p, v), Done) == CountReturned(After(acts).tickets, p, v)
  {
    if acts != [] {
      MovesCount(acts[..|acts| - 1], p, v);
      LastActCounts(acts, p, v);
    }
  }

  // Which act makes which move; what comes back was accepted and is not back yet.
  lemma {:induction false} MoveCases(r: Router, a: Act, p: nat, v: int)
    ensures var m := MoveOf(r, a, p, v);
      && |m| <= 1
      && (m == [Released] <==> a == Release(p, v))
      && (m != [] && m[0].Sent? <==> Sends(a, p, v))
      && (m == [Sent(false)] <==> Refuses(r, a, p, v))
      && (m == [Done] ==> CountReturned(r.tickets, p, v) < CountTickets(r.tickets, p, v))
  {
    if MoveOf(r, a, p, v) == [Done] {
      ReturnedAtMost(r.tickets, p, v);
      var k := a.op.ticket;
      assert IsOf(r.tickets[k], p, v) && !r.tickets[k].stage.Returned?;
    }
  }

  lemma {:induction false} ReleasedLastBefore(acts: seq<Act>, p: nat, v: int)
    requires ReleasedLast(acts, p, v) && acts != []
    ensures var before, last := acts[..|acts| - 1], acts[|acts| - 1];
      && ReleasedLast(before, p, v) && acts == before + [last]
      && (Release(p, v) in before ==> last != Release(p, v) && !Sends(last, p, v))
  {
  }

  lemma {:induction false} LastReleaseCounts(acts: seq<Act>, p: nat, v: int)
    requires acts != []
    ensures Count(MovesOf(acts, p, v), Released) ==
      Count(MovesOf(acts[..|acts| - 1], p, v), Released) + if acts[|acts| - 1] == Release(p, v) then 1 else 0
  {
    LastMoveCounts(acts, p, v, Released);
    MoveCases(After(acts[..|acts| - 1]), acts[|acts| - 1], p, v);
  }

  // The event has been released, once, if its producer did so.
  lemma {:induction false} ReleasesCount(acts: seq<Act>, p: nat, v: int)
    requires ReleasedLast(acts, p, v)
    ensures Count(MovesOf(acts, p, v), Released) == if Release(p, v) in acts then 1 else 0
  {
    if acts != [] {
      var before, last := acts[..|acts| - 1], acts[|acts| - 1];
      ReleasedLastBefore(acts, p, v);
      ReleasesCount(before, p, v);
      LastReleaseCounts(acts, p, v);
    }
  }

  lemma {:induction false} LegalSnoc(moves: seq<Move>, m: seq<Move>)
    requires Legal(moves) && |m| <= 1
    requires m != [] && m != [Done] ==> Count(moves, Released) == 0
    requires m == [Done] ==> Count(moves, Done) < Count(moves, Sent(true))
    ensures Legal(moves + m)
  {
    if m == [] {
      assert moves + m == moves;
    } else {
      var after := moves + m;
      assert m == [m[0]] && after[..|after| - 1] == moves && after[|after| - 1] == m[0];
      match m[0] {
        case Sent(_) => assert Count(moves, Released) == 0;
        case Done => assert Count(moves, Done) < Count(moves, Sent(true));
        case Released => assert Count(moves, Released) == 0;
      }
    }
  }

  // Whatever happens in a run is what may happen to an event: in particular only accepted notifications come back, and
  // no oftener than they were sent.
  lemma {:induction false} RouterRunsAreLegal(acts: seq<Act>, p: nat, v: int)
    requires ReleasedLast(acts, p, v)
    ensures Legal(MovesOf(acts, p, v))
  {
    if acts != [] {
      var before, last := acts[..|acts| - 1], acts[|acts| - 1];
      ReleasedLastBefore(acts, p, v);
      RouterRunsAreLegal(before, p, v);
      MovesCount(before, p, v);
      ReleasesCount(before, p, v);
      MoveCases(After(before), last, p, v);
      LegalSnoc(MovesOf(before, p, v), MoveOf(After(before), last, p, v));
    }
  }

  // ------------------------------------------------------------------ when the event is freed

  // Every notify of the event was accepted: its producer was registered each time and the router took it.
  ghost predicate NoneRefused(acts: seq<Act>, p: nat, v: int) {
    forall i :: 0 <= i < |acts| ==> !Refuses(After(acts[..i]), acts[i], p, v)
  }

  lemma {:induction false} NoneRefusedSnoc(acts: seq<Act>, p: nat, v: int)
    requires acts != []
    ensures var n := |acts| - 1;
      NoneRefused(acts, p, v) <==> NoneRefused(acts[..n], p, v) && !Refuses(After(acts[..n]), acts[n], p, v)
  {
    var n := |acts| - 1;
    forall i | 0 <= i < n ensures acts[..n][..i] == acts[..i] && acts[..n][i] == acts[i] {
    }
    if NoneRefused(acts[..n], p, v) && !Refuses(After(acts[..n]), acts[n], p, v) {
      forall i | 0 <= i < |acts| ensures !Refuses(After(acts[..i]), acts[i], p, v) {
        if i < n {
          assert !Refuses(After(acts[..n][..i]), acts[..n][i], p, v);
        }
      }
    }
    if NoneRefused(acts, p, v) {
      forall i | 0 <= i < n ensures !Refuses(After(acts[..n][..i]), acts[..n][i], p, v) {
        assert !Refuses(After(acts[..i]), acts[i], p, v);
      }
    }
  }

  lemma {:induction false} RefusalsCount(acts: seq<Act>, p: nat, v: int)
    ensures Count(MovesOf(acts, p, v), Sent(false)) == 0 <==> NoneRefused(acts, p, v)
  {
    if acts != [] {
      var before, last := acts[..|acts| - 1], acts[|acts| - 1];
      RefusalsCount(before, p, v);
      LastMoveCounts(acts, p, v, Sent(false));
      MoveCases(After(before), last, p, v);
      NoneRefusedSnoc(acts, p, v);
    }
  }

  // In every run an event has been freed exactly if its producer has released it, no notify of it was refused, and the
  // router has handed back every notification of it.
  lemma {:induction false} EventFreedIff(acts: seq<Act>, p: nat, v: int)
    requires ReleasedLast(acts, p, v)
    ensures LifeAfter(MovesOf(acts, p, v)).freed <==>
      Release(p, v) in acts && NoneRefused(acts, p, v) && AllReturned(After(acts).tickets, p, v)
  {
    RouterRunsAreLegal(acts, p, v);
    FreedExactlyWhenAllReturned(MovesOf(acts, p, v));
    MovesCount(acts, p, v);
    ReleasesCount(acts, p, v);
    ReturnedAtMost(After(acts).tickets, p, v);
    RefusalsCount(acts, p, v);
  }

  // In every run an act on the event finds it not yet freed.
  lemma {:induction false} EventNeverUsedAfterFree(acts: seq<Act>, a: Act, p: nat, v: int)
    requires ReleasedLast(acts + [a], p, v) && MoveOf(After(acts), a, p, v) != []
    ensures !LifeAfter(MovesOf(acts, p, v)).freed
  {
    assert (acts + [a])[..|acts|] == acts;
    RouterRunsAreLegal(acts + [a], p, v);
    var m := MoveOf(After(acts), a, p, v);
    assert m == [m[0]];
    NeverUsedAfterFree(MovesOf(acts, p, v), m[0]);
  }

  // In every run the event of a notification that is still to be returned has not been freed; so the consumer reads
  // it alive when it is called.
  lemma {:induction false} PendingEventIsAlive(acts: seq<Act>, k: nat)
    requires k < |After(acts).tickets| && !After(acts).tickets[k].stage.Returned?
    requires var t := After(acts).tickets[k]; ReleasedLast(acts, t.producer, t.value)
    ensures var t := After(acts).tickets[k]; !LifeAfter(MovesOf(acts, t.producer, t.value)).freed
  {
    var t := After(acts).tickets[k];
    EventFreedIff(acts, t.producer, t.value);
    assert IsOf(t, t.producer, t.value);
  }

  // In every run, once a notify of the event has been refused, the event is never freed.
  lemma {:induction false} RefusedEventLeaks(acts: seq<Act>, more: seq<Act>, p: nat, v: int)
    requires ReleasedLast(acts + more, p, v) && !NoneRefused(acts, p, v)
    ensures !LifeAfter(MovesOf(acts + more, p, v)).freed
  {
    EventFreedIff(acts + more, p, v);
    var i :| 0 <= i < |acts| && Refuses(After(acts[..i]), acts[i], p, v);
    assert (acts + more)[..i] == acts[..i] && (acts + more)[i] == acts[i];
  }

  // A registered producer whose notify fails inside the router gets Failure, and whatever follows its event stays.
  lemma {:induction false} FailedNotifyLeaks(acts: seq<Act>, more: seq<Act>, p: nat, s: Sub, v: int)
    requires p in After(acts).types
    requires ReleasedLast(acts + [Call(Notify(p, s, v, false))] + more, p, v)
    ensures Step(After(acts), Notify(p, s, v, false)).code == Failure
    ensures !LifeAfter(MovesOf(acts + [Call(Notify(p, s, v, false))] + more, p, v)).freed
  {
    var sent := acts + [Call(Notify(p, s, v, false))];
    assert sent[..|acts|] == acts && sent[|acts|] == Call(Notify(p, s, v, false));
    assert Refuses(After(sent[..|acts|]), sent[|acts|], p, v);
    RefusedEventLeaks(sent, more, p, v);
  }

  // One consumer, one producer of t and a live subscription.
  function Served(t: string, f: nat): seq<Act> {
    [Call(RegisterConsumer), Call(RegisterProducer), Call(AddProducerEvent(0, t, _ => true)),
     Call(AddSubscription(Sub(0, t, f), _ => true))]
  }

  lemma {:induction false} ServedIs(t: string, f: nat)
    ensures After(Served(t, f)) == OneProducer(t, [Sub(0, t, f)], [AddFilter(Pair(0, Sub(0, t, f)), true)])
  {
    var yes: Answers := (_ => true);
    var acts := Served(t, f);
    var one := Router({0}, [], map[], [], [], 1, 0, []);
    var two := Router({0}, [0], map[0 := {}], [], [], 1, 1, []);
    assert acts[..4] == acts && acts[..3][..2] == acts[..2] && acts[..2][..1] == acts[..1] && acts[..1][..0] == [];
    assert After(acts[..1]) == one;
    assert After(acts[..2]) == two;
    AnnounceUnwanted(two, 0, t, yes);
    OneType(t);
    assert two.types[0 := two.types[0] + {t}] == map[0 := {t}];
    assert After(acts[..3]) == OneProducer(t, [], []);
    SubscribeOne(t, [], [], Sub(0, t, f));
    assert [] + [Sub(0, t, f)] == [Sub(0, t, f)];
  }

  // It happens: with a live subscription its producer notifies, the router fails, and the producer lets go of the
  // event, as it always does.
  lemma {:induction false} LeakIsReached(t: string, f: nat, v: int, more: seq<Act>)
    requires forall a <- more :: a != Release(0, v) && !Sends(a, 0, v)
    ensures After(Served(t, f)).subs == [Sub(0, t, f)] && After(Served(t, f)).types == map[0 := {t}]
    ensures var failed := Call(Notify(0, Sub(0, t, f), v, false));
      !LifeAfter(MovesOf(Served(t, f) + [failed] + ([Release(0, v)] + more), 0, v)).freed
  {
    ServedIs(t, f);
    var acts := Served(t, f) + [Call(Notify(0, Sub(0, t, f), v, false))] + ([Release(0, v)] + more);
    forall i, j | 0 <= i < j < |acts| && acts[i] == Release(0, v)
      ensures acts[j] != Release(0, v) && !Sends(acts[j], 0, v)
    {
      assert i >= 5 && acts[j] == more[j - 6] && more[j - 6] in more;
    }
    FailedNotifyLeaks(Served(t, f), [Release(0, v)] + more, 0, Sub(0, t, f), v);
  }
}
