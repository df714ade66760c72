/**
 Who owns the value of a notification: the router holds it from the notify that was accepted until doneWithValue,
 which it calls exactly once, whatever happens to registrations meanwhile.
*/
module EventValues {
  import opened Common
  import opened EventRouterSpec
  import opened HeldFilters

  function OfTicket(calls: seq<Call>, t: nat): seq<Call> {
    if calls == [] then []
    else (if (calls[0].ToConsumer? || calls[0].DoneWithValue?) && calls[0].ticket == t then [calls[0]] else [])
         + OfTicket(calls[1..], t)
  }

  lemma {:induction false} OfTicketConcat(a: seq<Call>, b: seq<Call>, t: nat)
    ensures OfTicket(a + b, t) == OfTicket(a, t) + OfTicket(b, t)
  {
    if a == [] {
      assert a + b == b;
    } else {
      assert (a + b)[1..] == a[1..] + b;
      OfTicketConcat(a[1..], b, t);
    }
  }

  // Everything ever called for a notification, by the stage it has reached.
  function Story(stage: Stage, t: nat): seq<Call> {
    match stage
    case Queued => []
    case Handled(called) => if called then [ToConsumer(t)] else []
    case Returned(called) => (if called then [ToConsumer(t)] else []) + [DoneWithValue(t)]
  }

  ghost predicate Accounted(r: Router) {
    forall t: nat :: OfTicket(r.calls, t) == if t < |r.tickets| then Story(r.tickets[t].stage, t) else []
  }

  lemma {:induction false} FilterCallsNameNoTicket(calls: seq<Call>, t: nat)
    requires forall c :: c in calls ==> c.AddFilter? || c.RemoveFilter?
    ensures OfTicket(calls, t) == []
  {
    if calls != [] {
      assert calls[0] in calls;
      FilterCallsNameNoTicket(calls[1..], t);
    }
  }

  lemma {:induction false} RegistrationAccounted(r: Router, op: Op)
    requires Accounted(r) && !op.Notify? && !op.Deliver? && !op.Return?
    ensures Accounted(Registration(r, op).router)
  {
    var r' := Registration(r, op).router;
    var more := CallsOf(r, op);
    StepAppends(r, op);
    RegistrationCallsFilter(r, op);
    assert r'.tickets == r.tickets;
    forall t: nat ensures OfTicket(r'.calls, t) == OfTicket(r.calls, t) {
      FilterCallsNameNoTicket(more, t);
      OfTicketConcat(r.calls, more, t);
    }
  }

  // One call more about a ticket adds to that ticket's story only.
  lemma {:induction false} OneMoreCall(calls: seq<Call>, c: Call, t: nat)
    requires c.ToConsumer? || c.DoneWithValue?
    ensures OfTicket(calls + [c], t) == OfTicket(calls, t) + if c.ticket == t then [c] else []
  {
    OfTicketConcat(calls, [c], t);
    assert [c][1..] == [];
  }

  // Moving ticket k on to a stage whose story is longer by exactly what is called.
  lemma {:induction false} MoveAccounted(r: Router, k: nat, stage: Stage, more: seq<Call>)
    requires Accounted(r) && k < |r.tickets|
    requires Story(stage, k) == Story(r.tickets[k].stage, k) + more
    requires more == [] || more == [ToConsumer(k)] || more == [DoneWithValue(k)]
    ensures Accounted(r.(tickets := r.tickets[k := r.tickets[k].(stage := stage)], calls := r.calls + more))
  {
    var tickets := r.tickets[k := r.tickets[k].(stage := stage)];
    forall t: nat ensures OfTicket(r.calls + more, t) == if t < |tickets| then Story(tickets[t].stage, t) else [] {
      assert OfTicket(r.calls, t) == if t < |r.tickets| then Story(r.tickets[t].stage, t) else [];
      if more == [] {
        assert r.calls + more == r.calls;
      } else {
        OneMoreCall(r.calls, more[0], t);
      }
    }
  }

  lemma {:induction false} NotificationAccounted(r: Router, op: Op)
    requires Accounted(r) && (op.Notify? || op.Deliver? || op.Return?)
    ensures Accounted(Notification(r, op).router)
  {
    match op {
      case Notify(p, s, value, ok) =>
        var tickets := r.tickets + [Ticket(p, s, value, Queued)];
        forall t: nat ensures OfTicket(r.calls, t) == if t < |tickets| then Story(tickets[t].stage, t) else [] {
          assert OfTicket(r.calls, t) == if t < |r.tickets| then Story(r.tickets[t].stage, t) else [];
        }
      case Deliver(k) =>
        if k < |r.tickets| && r.tickets[k].stage.Queued? {
          var called := r.tickets[k].sub in r.subs;
          MoveAccounted(r, k, Handled(called), if called then [ToConsumer(k)] else []);
        }
      case Return(k) =>
        if k < |r.tickets| && r.tickets[k].stage.Handled? {
          MoveAccounted(r, k, Returned(r.tickets[k].stage.called), [DoneWithValue(k)]);
        }
    }
  }

  lemma {:induction false} RunAccounted(r: Router, ops: seq<Op>)
    requires Accounted(r)
    ensures Accounted(Run(r, ops))
    decreases |ops|
  {
    if ops != [] {
      if ops[0].Notify? || ops[0].Deliver? || ops[0].Return? {
        NotificationAccounted(r, ops[0]);
      } else {
        RegistrationAccounted(r, ops[0]);
      }
      RunAccounted(Step(r, ops[0]).router, ops[1..]);
    }
  }

  // In every run, and for every notification ever accepted, doneWithValue has been called exactly once if it was
  // returned and not at all otherwise; the consumer was called at most once, and before it.
  lemma {:induction false} ValuesComeBackOnce(ops: seq<Op>, t: nat)
    requires t < |Run(Init(), ops).tickets|
    ensures var r := Run(Init(), ops);
      match r.tickets[t].stage
      case Queued => OfTicket(r.calls, t) == []
      case Handled(called) => OfTicket(r.calls, t) == if called then [ToConsumer(t)] else []
      case Returned(called) =>
        OfTicket(r.calls, t) == (if called then [ToConsumer(t)] else []) + [DoneWithValue(t)]
  {
    RunAccounted(Init(), ops);
  }

  // What was accepted by notify in the run, in order.
  function Notified(r: Router, ops: seq<Op>): seq<(nat, Sub, int)>
    decreases |ops|
  {
    if ops == [] then []
    else
      (if ops[0].Notify? && Step(r, ops[0]).code == Ok then [(ops[0].producer, ops[0].sub, ops[0].value)] else [])
      + Notified(Step(r, ops[0]).router, ops[1..])
  }

  function Contents(tickets: seq<Ticket>): seq<(nat, Sub, int)> {
    seq(|tickets|, i requires 0 <= i < |tickets| => (tickets[i].producer, tickets[i].sub, tickets[i].value))
  }

  lemma {:induction false} StepTickets(r: Router, op: Op)
    ensures Contents(Step(r, op).router.tickets) == Contents(r.tickets)
      + if op.Notify? && Step(r, op).code == Ok then [(op.producer, op.sub, op.value)] else []
  {
  }

  // In every run the tickets, and so the values handed out and given back, are what producers notified, in order.
  lemma {:induction false} TicketsAreNotifies(r: Router, ops: seq<Op>)
    ensures Contents(Run(r, ops).tickets) == Contents(r.tickets) + Notified(r, ops)
    decreases |ops|
  {
    if ops != [] {
      var now := if ops[0].Notify? && Step(r, ops[0]).code == Ok
                 then [(ops[0].producer, ops[0].sub, ops[0].value)] else [];
      StepTickets(r, ops[0]);
      TicketsAreNotifies(Step(r, ops[0]).router, ops[1..]);
      ConcatAssoc(Contents(r.tickets), now, Notified(Step(r, ops[0]).router, ops[1..]));
    }
  }

  predicate Pending(r: Router, t: nat) {
    t < |r.tickets| && !r.tickets[t].stage.Returned?
  }

  // A notification outlives every registration change: only handing its value back ends it.
  lemma {:induction false} PendingSurvives(r: Router, ops: seq<Op>, t: nat)
    requires Pending(r, t) && Return(t) !in ops
    ensures Pending(Run(r, ops), t)
    ensures var a, b := r.tickets[t], Run(r, ops).tickets[t];
      a.producer == b.producer && a.sub == b.sub && a.value == b.value
    decreases |ops|
  {
    if ops != [] {
      assert ops[0] in ops;
      PendingSurvives(Step(r, ops[0]).router, ops[1..], t);
    }
  }

  // And it can always be brought to its end, whoever has unregistered; the consumer is called exactly if its
  // subscription is still there.
  lemma {:induction false} PendingCanFinish(ops: seq<Op>, t: nat)
    requires var r := Run(Init(), ops); t < |r.tickets| && r.tickets[t].stage.Queued?
    ensures var r := Run(Init(), ops);
      var end := Step(Step(r, Deliver(t)).router, Return(t));
      && end.code == Ok && !Pending(end.router, t)
      && OfTicket(end.router.calls, t) ==
           (if r.tickets[t].sub in r.subs then [ToConsumer(t)] else []) + [DoneWithValue(t)]
  {
    var r := Run(Init(), ops);
    RunAccounted(Init(), ops);
    NotificationAccounted(r, Deliver(t));
    NotificationAccounted(Step(r, Deliver(t)).router, Return(t));
  }
}
