/**
 The event router: consumers subscribe, producers announce event types, and the router keeps every producer
 informed of exactly the filters it has to serve.  Notifications are queued, handed to the consumer by the
 dispatching thread, and given back to the producer with doneWithValue.

 Producers may refuse a filter; every registration call carries their answers.  What the router asked of
 producers and consumers is kept in one history of calls.
*/
module EventRouterSpec {
  import opened Common

  // A filter is known by its instance.
  datatype Sub = Sub(consumer: nat, eventType: string, filter: nat)
  datatype Pair = Pair(producer: nat, sub: Sub)

  datatype Call =
    | AddFilter(pair: Pair, accepted: bool)
    | RemoveFilter(pair: Pair)
    | ToConsumer(ticket: nat)
    | DoneWithValue(ticket: nat)

  type Answers = Pair -> bool

  // A notification on its way; once handled it says whether a consumer was called.
  datatype Stage = Queued | Handled(called: bool) | Returned(called: bool)
  datatype Ticket = Ticket(producer: nat, sub: Sub, value: int, stage: Stage)

  datatype Router = Router(consumers: set<nat>, producers: seq<nat>, types: map<nat, set<string>>,
                           subs: seq<Sub>, tickets: seq<Ticket>, nextConsumer: nat, nextProducer: nat,
                           calls: seq<Call>)

  // ok tells whether the router manages to take the notification; it may fail with an internal error.
  datatype Op =
    | RegisterConsumer
    | UnregisterConsumer(consumer: nat)
    | AddSubscription(sub: Sub, answers: Answers)
    | RemoveSubscription(sub: Sub)
    | RegisterProducer
    | UnregisterProducer(producer: nat)
    | AddProducerEvent(producer: nat, eventType: string, answers: Answers)
    | RemoveProducerEvent(producer: nat, eventType: string)
    | Notify(producer: nat, sub: Sub, value: int, ok: bool)
    | Deliver(ticket: nat)
    | Return(ticket: nat)

  datatype Reply = Reply(router: Router, code: ReturnCode)

  // ------------------------------------------------------------------ calls to producers

  // The pairs of one subscription: it and every producer of its type, in registration order.
  function PairsOfSub(producers: seq<nat>, types: map<nat, set<string>>, s: Sub): seq<Pair> {
    if producers == [] then []
    else
      (if producers[0] in types && s.eventType in types[producers[0]] then [Pair(producers[0], s)] else [])
      + PairsOfSub(producers[1..], types, s)
  }

  // The pairs of one producer and one event type: it and every subscription to the type.
  function PairsOfType(p: nat, t: string, subs: seq<Sub>): seq<Pair> {
    if subs == [] then []
    else (if subs[0].eventType == t then [Pair(p, subs[0])] else []) + PairsOfType(p, t, subs[1..])
  }

  function PairsOfConsumer(producers: seq<nat>, types: map<nat, set<string>>, subs: seq<Sub>, c: nat): seq<Pair> {
    if subs == [] then []
    else
      (if subs[0].consumer == c then PairsOfSub(producers, types, subs[0]) else [])
      + PairsOfConsumer(producers, types, subs[1..], c)
  }

  function Adds(pairs: seq<Pair>): seq<Call> {
    seq(|pairs|, i requires 0 <= i < |pairs| => AddFilter(pairs[i], true))
  }

  function Removes(pairs: seq<Pair>): seq<Call> {
    seq(|pairs|, i requires 0 <= i < |pairs| => RemoveFilter(pairs[i]))
  }

  function Accepted(pairs: seq<Pair>, answers: Answers): (n: nat)
    ensures n <= |pairs|
    ensures forall i :: 0 <= i < n ==> answers(pairs[i])
    ensures n < |pairs| ==> !answers(pairs[n])
  {
    if pairs == [] || !answers(pairs[0]) then 0 else 1 + Accepted(pairs[1..], answers)
  }

  // Offer the filters one by one; at the first refusal take back what was accepted.
  function Offer(pairs: seq<Pair>, answers: Answers): seq<Call> {
    var n := Accepted(pairs, answers);
    if n == |pairs| then Adds(pairs)
    else Adds(pairs[..n]) + [AddFilter(pairs[n], false)] + Removes(pairs[..n])
  }

  // ------------------------------------------------------------------ the machine

  function WithoutConsumer(subs: seq<Sub>, c: nat): seq<Sub> {
    if subs == [] then [] else (if subs[0].consumer == c then [] else [subs[0]]) + WithoutConsumer(subs[1..], c)
  }

  function Init(): Router {
    Router({}, [], map[], [], [], 0, 0, [])
  }

  function Registration(r: Router, op: Op): Reply
    requires !op.Notify? && !op.Deliver? && !op.Return?
  {
    match op
    case RegisterConsumer =>
      Reply(r.(consumers := r.consumers + {r.nextConsumer}, nextConsumer := r.nextConsumer + 1), Ok)
    case UnregisterConsumer(c) =>
      if c !in r.consumers then Reply(r, InvalidArgument)
      else
        var gone := PairsOfConsumer(r.producers, r.types, r.subs, c);
        Reply(r.(consumers := r.consumers - {c}, subs := WithoutConsumer(r.subs, c),
                 calls := r.calls + Removes(gone)), Ok)
    case AddSubscription(s, answers) =>
      if s.consumer !in r.consumers then Reply(r, InvalidArgument)
      else if s in r.subs then Reply(r, Failure)
      else
        var pairs := PairsOfSub(r.producers, r.types, s);
        var r' := r.(calls := r.calls + Offer(pairs, answers));
        if Accepted(pairs, answers) == |pairs| then Reply(r'.(subs := r.subs + [s]), Ok) else Reply(r', Failure)
    case RemoveSubscription(s) =>
      if s.consumer !in r.consumers then Reply(r, InvalidArgument)
      else if s !in r.subs then Reply(r, Failure)
      else
        Reply(r.(subs := Without(r.subs, s), calls := r.calls + Removes(PairsOfSub(r.producers, r.types, s))), Ok)
    case RegisterProducer =>
      Reply(r.(producers := r.producers + [r.nextProducer], types := r.types[r.nextProducer := {}],
               nextProducer := r.nextProducer + 1), Ok)
    case UnregisterProducer(p) =>
      if p !in r.types then Reply(r, InvalidArgument)
      else Reply(r.(producers := Without(r.producers, p), types := r.types - {p}), Ok)
    case AddProducerEvent(p, t, answers) =>
      if p !in r.types then Reply(r, InvalidArgument)
      else if t in r.types[p] then Reply(r, Failure)
      else
        var pairs := PairsOfType(p, t, r.subs);
        var r' := r.(calls := r.calls + Offer(pairs, answers));
        if Accepted(pairs, answers) == |pairs| then Reply(r'.(types := r.types[p := r.types[p] + {t}]), Ok)
        else Reply(r', Failure)
    case RemoveProducerEvent(p, t) =>
      if p !in r.types then Reply(r, InvalidArgument)
      else if t !in r.types[p] then Reply(r, Failure)
      else
        Reply(r.(types := r.types[p := r.types[p] - {t}], calls := r.calls + Removes(PairsOfType(p, t, r.subs))), Ok)
  }

  function Notification(r: Router, op: Op): Reply
    requires op.Notify? || op.Deliver? || op.Return?
  {
    match op
    case Notify(p, s, value, ok) =>
      if p !in r.types then Reply(r, InvalidArgument)
      else if !ok then Reply(r, Failure)
      else Reply(r.(tickets := r.tickets + [Ticket(p, s, value, Queued)]), Ok)
    case Deliver(t) =>
      if t >= |r.tickets| || !r.tickets[t].stage.Queued? then Reply(r, NotExist)
      else
        var called := r.tickets[t].sub in r.subs;
        Reply(r.(tickets := r.tickets[t := r.tickets[t].(stage := Handled(called))],
                 calls := r.calls + if called then [ToConsumer(t)] else []), Ok)
    case Return(t) =>
      if t >= |r.tickets| || !r.tickets[t].stage.Handled? then Reply(r, NotExist)
      else
        Reply(r.(tickets := r.tickets[t := r.tickets[t].(stage := Returned(r.tickets[t].stage.called))],
                 calls := r.calls + [DoneWithValue(t)]), Ok)
  }

  function Step(r: Router, op: Op): Reply {
    if op.Notify? || op.Deliver? || op.Return? then Notification(r, op) else Registration(r, op)
  }

  function Run(r: Router, ops: seq<Op>): Router
    decreases |ops|
  {
    if ops == [] then r else Run(Step(r, ops[0]).router, ops[1..])
  }

  lemma {:induction false} RunSnoc(r: Router, ops: seq<Op>, op: Op)
    ensures Run(r, ops + [op]) == Step(Run(r, ops), op).router
    decreases |ops|
  {
    if ops == [] {
      assert ([] + [op])[1..] == [];
    } else {
      assert (ops + [op])[1..] == ops[1..] + [op];
      RunSnoc(Step(r, ops[0]).router, ops[1..], op);
    }
  }
}

/** What producers hold, read off the calls they received, and what one step of the router calls. */
module HeldFilters {
  import opened Common
  import opened EventRouterSpec

  // What producers hold after the calls, read off the calls alone.
  function Held(h: set<Pair>, calls: seq<Call>): set<Pair>
    decreases |calls|
  {
    if calls == [] then h
    else
      match calls[0]
      case AddFilter(x, ok) => Held(if ok then h + {x} else h, calls[1..])
      case RemoveFilter(x) => Held(h - {x}, calls[1..])
      case _ => Held(h, calls[1..])
  }

  // A producer is never offered a filter it holds, nor told to remove one it does not hold.
  predicate Balanced(h: set<Pair>, calls: seq<Call>)
    decreases |calls|
  {
    calls == [] ||
    match calls[0]
    case AddFilter(x, ok) => x !in h && Balanced(if ok then h + {x} else h, calls[1..])
    case RemoveFilter(x) => x in h && Balanced(h - {x}, calls[1..])
    case _ => Balanced(h, calls[1..])
  }

  lemma {:induction false} HeldConcat(h: set<Pair>, a: seq<Call>, b: seq<Call>)
    ensures Held(h, a + b) == Held(Held(h, a), b)
    ensures Balanced(h, a + b) <==> Balanced(h, a) && Balanced(Held(h, a), b)
    decreases |a|
  {
    if a == [] {
      assert a + b == b;
    } else {
      assert (a + b)[1..] == a[1..] + b;
      match a[0] {
        case AddFilter(x, ok) => HeldConcat(if ok then h + {x} else h, a[1..], b);
        case RemoveFilter(x) => HeldConcat(h - {x}, a[1..], b);
        case _ => HeldConcat(h, a[1..], b);
      }
    }
  }

  function PairSet(pairs: seq<Pair>): set<Pair> {
    set x | x in pairs
  }

  lemma {:induction false} HeldAdds(h: set<Pair>, pairs: seq<Pair>)
    requires NoDup(pairs) && forall x :: x in pairs ==> x !in h
    ensures Held(h, Adds(pairs)) == h + PairSet(pairs) && Balanced(h, Adds(pairs))
    decreases |pairs|
  {
    if pairs == [] {
      assert h + PairSet(pairs) == h;
    } else {
      NoDupTail(pairs);
      assert Adds(pairs)[1..] == Adds(pairs[1..]);
      HeldAdds(h + {pairs[0]}, pairs[1..]);
      assert PairSet(pairs) == {pairs[0]} + PairSet(pairs[1..]);
      assert h + {pairs[0]} + PairSet(pairs[1..]) == h + PairSet(pairs);
    }
  }

  lemma {:induction false} HeldRemoves(h: set<Pair>, pairs: seq<Pair>)
    requires NoDup(pairs) && forall x :: x in pairs ==> x in h
    ensures Held(h, Removes(pairs)) == h - PairSet(pairs) && Balanced(h, Removes(pairs))
    decreases |pairs|
  {
    if pairs == [] {
      assert h - PairSet(pairs) == h;
    } else {
      NoDupTail(pairs);
      assert Removes(pairs)[1..] == Removes(pairs[1..]);
      HeldRemoves(h - {pairs[0]}, pairs[1..]);
      assert PairSet(pairs) == {pairs[0]} + PairSet(pairs[1..]);
      assert h - {pairs[0]} - PairSet(pairs[1..]) == h - PairSet(pairs);
    }
  }

  // An offer either leaves every pair held or leaves everything as it was.
  lemma {:induction false} HeldOffer(h: set<Pair>, pairs: seq<Pair>, answers: Answers)
    requires NoDup(pairs) && forall x :: x in pairs ==> x !in h
    ensures Balanced(h, Offer(pairs, answers))
    ensures Held(h, Offer(pairs, answers)) == if Accepted(pairs, answers) == |pairs| then h + PairSet(pairs) else h
  {
    var n := Accepted(pairs, answers);
    if n == |pairs| {
      HeldAdds(h, pairs);
    } else {
      var some := pairs[..n];
      HeldAdds(h, some);
      var h' := h + PairSet(some);
      var no := [AddFilter(pairs[n], false)];
      assert pairs[n] !in some;
      assert no[1..] == [];
      assert Held(h', no) == h' && Balanced(h', no);
      HeldRemoves(h', some);
      HeldConcat(h, Adds(some), no);
      HeldConcat(h, Adds(some) + no, Removes(some));
      assert h' - PairSet(some) == h;
    }
  }

  // What one step calls.
  function CallsOf(r: Router, op: Op): seq<Call> {
    match op
    case UnregisterConsumer(c) =>
      if c in r.consumers then Removes(PairsOfConsumer(r.producers, r.types, r.subs, c)) else []
    case AddSubscription(s, answers) =>
      if s.consumer in r.consumers && s !in r.subs then Offer(PairsOfSub(r.producers, r.types, s), answers) else []
    case RemoveSubscription(s) =>
      if s.consumer in r.consumers && s in r.subs then Removes(PairsOfSub(r.producers, r.types, s)) else []
    case AddProducerEvent(p, t, answers) =>
      if p in r.types && t !in r.types[p] then Offer(PairsOfType(p, t, r.subs), answers) else []
    case RemoveProducerEvent(p, t) =>
      if p in r.types && t in r.types[p] then Removes(PairsOfType(p, t, r.subs)) else []
    case Deliver(t) =>
      if t < |r.tickets| && r.tickets[t].stage.Queued? && r.tickets[t].sub in r.subs then [ToConsumer(t)] else []
    case Return(t) => if t < |r.tickets| && r.tickets[t].stage.Handled? then [DoneWithValue(t)] else []
    case _ => []
  }

  lemma {:induction false} StepAppends(r: Router, op: Op)
    ensures Step(r, op).router.calls == r.calls + CallsOf(r, op)
  {
    assert r.calls + [] == r.calls;
  }

  lemma {:induction false} RegistrationCallsFilter(r: Router, op: Op)
    requires !op.Notify? && !op.Deliver? && !op.Return?
    ensures forall c :: c in CallsOf(r, op) ==> c.AddFilter? || c.RemoveFilter?
  {
  }

  // ------------------------------------------------------------------ which pairs are meant

  lemma {:induction false} PairsOfSubAre(producers: seq<nat>, types: map<nat, set<string>>, s: Sub)
    requires NoDup(producers)
    ensures var pairs := PairsOfSub(producers, types, s);
      && NoDup(pairs)
      && forall x :: x in pairs <==>
           x.sub == s && x.producer in producers && x.producer in types && s.eventType in types[x.producer]
  {
    if producers != [] {
      NoDupTail(producers);
      PairsOfSubAre(producers[1..], types, s);
    }
  }

  lemma {:induction false} PairsOfTypeAre(p: nat, t: string, subs: seq<Sub>)
    requires NoDup(subs)
    ensures var pairs := PairsOfType(p, t, subs);
      NoDup(pairs) && forall x :: x in pairs <==> x.producer == p && x.sub in subs && x.sub.eventType == t
  {
    if subs != [] {
      NoDupTail(subs);
      PairsOfTypeAre(p, t, subs[1..]);
    }
  }

  lemma {:induction false} PairsOfConsumerAre(producers: seq<nat>, types: map<nat, set<string>>, subs: seq<Sub>, c: nat)
    requires NoDup(producers) && NoDup(subs)
    ensures var pairs := PairsOfConsumer(producers, types, subs, c);
      && NoDup(pairs)
      && forall x :: x in pairs <==>
           && x.sub in subs && x.sub.consumer == c
           && x.producer in producers && x.producer in types && x.sub.eventType in types[x.producer]
  {
    if subs != [] {
      NoDupTail(subs);
      PairsOfConsumerAre(producers, types, subs[1..], c);
      PairsOfSubAre(producers, types, subs[0]);
      var first := if subs[0].consumer == c then PairsOfSub(producers, types, subs[0]) else [];
      NoDupConcat(first, PairsOfConsumer(producers, types, subs[1..], c));
    }
  }

  lemma {:induction false} WithoutConsumerIs(subs: seq<Sub>, c: nat)
    requires NoDup(subs)
    ensures NoDup(WithoutConsumer(subs, c))
    ensures forall x :: x in WithoutConsumer(subs, c) <==> x in subs && x.consumer != c
  {
    if subs != [] {
      NoDupTail(subs);
      WithoutConsumerIs(subs[1..], c);
    }
  }
}

/** In every run each registered producer holds exactly the filters it should. */
module EventRouterProofs {
  import opened Common
  import opened EventRouterSpec
  import opened HeldFilters

  ghost predicate Tables(r: Router) {
    && NoDup(r.producers) && NoDup(r.subs)
    && (forall p :: p in r.producers <==> p in r.types)
    && (forall p :: p in r.types ==> p < r.nextProducer)
    && (forall s :: s in r.subs ==> s.consumer in r.consumers)
    && (forall c :: c in r.consumers ==> c < r.nextConsumer)
  }

  // A registered producer is to hold exactly the live subscriptions to the types it produces.
  ghost predicate Agrees(r: Router, held: set<Pair>, x: Pair) {
    if x.producer in r.types then x in held <==> x.sub in r.subs && x.sub.eventType in r.types[x.producer]
    else x.producer >= r.nextProducer ==> x !in held
  }

  ghost predicate Agreement(r: Router) {
    forall x: Pair :: Agrees(r, Held({}, r.calls), x)
  }

  ghost predicate Consistent(r: Router) {
    Tables(r) && Agreement(r) && Balanced({}, r.calls)
  }

  lemma {:induction false} SilentCallsKeep(h: set<Pair>, calls: seq<Call>, c: Call)
    requires c.ToConsumer? || c.DoneWithValue?
    ensures Held(h, calls + [c]) == Held(h, calls) && (Balanced(h, calls + [c]) <==> Balanced(h, calls))
  {
    HeldConcat(h, calls, [c]);
    assert [c][1..] == [];
  }

  // Appending calls that take what producers hold from h to h', to tables that agree with h'.
  lemma {:induction false} AgreesAfter(r: Router, r': Router, more: seq<Call>, h': set<Pair>)
    requires Balanced({}, r.calls) && r'.calls == r.calls + more
    requires Balanced(Held({}, r.calls), more) && Held(Held({}, r.calls), more) == h'
    requires Tables(r') && forall x: Pair :: Agrees(r', h', x)
    ensures Consistent(r')
  {
    HeldConcat({}, r.calls, more);
  }

  lemma {:induction false} AddSubscriptionKeeps(r: Router, s: Sub, answers: Answers)
    requires Consistent(r) && s.consumer in r.consumers && s !in r.subs
    ensures Consistent(Registration(r, AddSubscription(s, answers)).router)
  {
    var r' := Registration(r, AddSubscription(s, answers)).router;
    var pairs := PairsOfSub(r.producers, r.types, s);
    var h := Held({}, r.calls);
    PairsOfSubAre(r.producers, r.types, s);
    forall x | x in pairs ensures x !in h {
      assert Agrees(r, h, x);
    }
    HeldOffer(h, pairs, answers);
    var h' := if Accepted(pairs, answers) == |pairs| then h + PairSet(pairs) else h;
    NoDupConcat(r.subs, [s]);
    assert Tables(r');
    forall x: Pair ensures Agrees(r', h', x) {
      assert Agrees(r, h, x);
      assert x.sub in r'.subs <==> x.sub in r.subs || (x.sub == s && r' != r && Accepted(pairs, answers) == |pairs|);
    }
    AgreesAfter(r, r', Offer(pairs, answers), h');
  }

  lemma {:induction false} RemoveSubscriptionKeeps(r: Router, s: Sub)
    requires Consistent(r) && s in r.subs
    ensures Consistent(Registration(r, RemoveSubscription(s)).router)
  {
    var r' := Registration(r, RemoveSubscription(s)).router;
    var pairs := PairsOfSub(r.producers, r.types, s);
    var h := Held({}, r.calls);
    PairsOfSubAre(r.producers, r.types, s);
    forall x | x in pairs ensures x in h {
      assert Agrees(r, h, x);
    }
    HeldRemoves(h, pairs);
    WithoutIs(r.subs, s);
    forall x: Pair ensures Agrees(r', h - PairSet(pairs), x) {
      assert Agrees(r, h, x);
    }
    AgreesAfter(r, r', Removes(pairs), h - PairSet(pairs));
  }

  lemma {:induction false} AddProducerEventKeeps(r: Router, p: nat, t: string, answers: Answers)
    requires Consistent(r) && p in r.types && t !in r.types[p]
    ensures Consistent(Registration(r, AddProducerEvent(p, t, answers)).router)
  {
    var r' := Registration(r, AddProducerEvent(p, t, answers)).router;
    var pairs := PairsOfType(p, t, r.subs);
    var h := Held({}, r.calls);
    PairsOfTypeAre(p, t, r.subs);
    forall x | x in pairs ensures x !in h {
      assert Agrees(r, h, x);
    }
    HeldOffer(h, pairs, answers);
    var h' := if Accepted(pairs, answers) == |pairs| then h + PairSet(pairs) else h;
    forall x: Pair ensures Agrees(r', h', x) {
      assert Agrees(r, h, x);
    }
    AgreesAfter(r, r', Offer(pairs, answers), h');
  }

  lemma {:induction false} RemoveProducerEventKeeps(r: Router, p: nat, t: string)
    requires Consistent(r) && p in r.types && t in r.types[p]
    ensures Consistent(Registration(r, RemoveProducerEvent(p, t)).router)
  {
    var r' := Registration(r, RemoveProducerEvent(p, t)).router;
    var pairs := PairsOfType(p, t, r.subs);
    var h := Held({}, r.calls);
    PairsOfTypeAre(p, t, r.subs);
    forall x | x in pairs ensures x in h {
      assert Agrees(r, h, x);
    }
    HeldRemoves(h, pairs);
    forall x: Pair ensures Agrees(r', h - PairSet(pairs), x) {
      assert Agrees(r, h, x);
    }
    AgreesAfter(r, r', Removes(pairs), h - PairSet(pairs));
  }

  lemma {:induction false} UnregisterConsumerKeeps(r: Router, c: nat)
    requires Consistent(r) && c in r.consumers
    ensures Consistent(Registration(r, UnregisterConsumer(c)).router)
  {
    var r' := Registration(r, UnregisterConsumer(c)).router;
    var pairs := PairsOfConsumer(r.producers, r.types, r.subs, c);
    var h := Held({}, r.calls);
    PairsOfConsumerAre(r.producers, r.types, r.subs, c);
    forall x | x in pairs ensures x in h {
      assert Agrees(r, h, x);
    }
    HeldRemoves(h, pairs);
    WithoutConsumerIs(r.subs, c);
    forall x: Pair ensures Agrees(r', h - PairSet(pairs), x) {
      assert Agrees(r, h, x);
    }
    AgreesAfter(r, r', Removes(pairs), h - PairSet(pairs));
  }

  lemma {:induction false} PartyKeeps(r: Router, op: Op)
    requires Consistent(r)
    requires op.RegisterConsumer? || op.RegisterProducer? || op.UnregisterProducer?
    ensures Consistent(Registration(r, op).router)
  {
    match op {
      case RegisterProducer =>
        assert r.nextProducer !in r.producers;
        NoDupConcat(r.producers, [r.nextProducer]);
      case UnregisterProducer(p) => WithoutIs(r.producers, p);
      case _ =>
    }
    var r' := Registration(r, op).router;
    forall x: Pair ensures Agrees(r', Held({}, r'.calls), x) {
      assert Agrees(r, Held({}, r.calls), x);
    }
  }

  lemma {:induction false} NotificationKeeps(r: Router, op: Op)
    requires Consistent(r) && (op.Notify? || op.Deliver? || op.Return?)
    ensures Consistent(Notification(r, op).router)
  {
    if op.Deliver? || op.Return? {
      SilentCallsKeep({}, r.calls, ToConsumer(op.ticket));
      SilentCallsKeep({}, r.calls, DoneWithValue(op.ticket));
      assert r.calls + [] == r.calls;
    }
    var r' := Notification(r, op).router;
    forall x: Pair ensures Agrees(r', Held({}, r'.calls), x) {
      assert Agrees(r, Held({}, r.calls), x);
    }
  }

  lemma {:induction false} StepKeeps(r: Router, op: Op)
    requires Consistent(r)
    ensures Consistent(Step(r, op).router)
  {
    match op {
      case AddSubscription(s, answers) =>
        if s.consumer in r.consumers && s !in r.subs {
          AddSubscriptionKeeps(r, s, answers);
        }
      case RemoveSubscription(s) =>
        if s in r.subs {
          RemoveSubscriptionKeeps(r, s);
        }
      case AddProducerEvent(p, t, answers) =>
        if p in r.types && t !in r.types[p] {
          AddProducerEventKeeps(r, p, t, answers);
        }
      case RemoveProducerEvent(p, t) =>
        if p in r.types && t in r.types[p] {
          RemoveProducerEventKeeps(r, p, t);
        }
      case UnregisterConsumer(c) =>
        if c in r.consumers {
          UnregisterConsumerKeeps(r, c);
        }
      case Notify(_, _, _, _) => NotificationKeeps(r, op);
      case Deliver(_) => NotificationKeeps(r, op);
      case Return(_) => NotificationKeeps(r, op);
      case _ => PartyKeeps(r, op);
    }
  }

  lemma {:induction false} RunKeeps(r: Router, ops: seq<Op>)
    requires Consistent(r)
    ensures Consistent(Run(r, ops))
    decreases |ops|
  {
    if ops != [] {
      StepKeeps(r, ops[0]);
      RunKeeps(Step(r, ops[0]).router, ops[1..]);
    }
  }
}
