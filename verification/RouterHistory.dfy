/**
 Who is registered, who is subscribed and which types are produced, read off the requests made and the codes they were
 answered with; and what decides those codes.
*/
module RouterHistory {
  import opened Common
  import opened EventRouterSpec
  import opened HeldFilters
  import opened EventRouterProofs

  // Whether the last request of the run was answered Ok.
  ghost predicate LastOk(ops: seq<Op>)
    requires ops != []
  {
    Step(Run(Init(), ops[..|ops| - 1]), ops[|ops| - 1]).code == Ok
  }

  // Some registration gave out the number c, and it has not been unregistered since.
  ghost predicate ConsumerThere(ops: seq<Op>, c: nat) {
    ops != [] &&
    (var before, op := ops[..|ops| - 1], ops[|ops| - 1];
     || (op.RegisterConsumer? && Run(Init(), before).nextConsumer == c)
     || (ConsumerThere(before, c) && !(op == UnregisterConsumer(c) && LastOk(ops))))
  }

  ghost predicate ProducerThere(ops: seq<Op>, p: nat) {
    ops != [] &&
    (var before, op := ops[..|ops| - 1], ops[|ops| - 1];
     || (op.RegisterProducer? && Run(Init(), before).nextProducer == p)
     || (ProducerThere(before, p) && !(op == UnregisterProducer(p) && LastOk(ops))))
  }

  // s was subscribed, and neither it nor its consumer has been withdrawn since.
  ghost predicate SubThere(ops: seq<Op>, s: Sub) {
    ops != [] &&
    (var before, op := ops[..|ops| - 1], ops[|ops| - 1];
     || (op.AddSubscription? && op.sub == s && LastOk(ops))
     || (SubThere(before, s)
         && !(LastOk(ops) && (op == RemoveSubscription(s) || op == UnregisterConsumer(s.consumer)))))
  }

  // p announced t, and has neither withdrawn it nor gone since.
  ghost predicate TypeThere(ops: seq<Op>, p: nat, t: string) {
    ops != [] &&
    (var before, op := ops[..|ops| - 1], ops[|ops| - 1];
     || (op.AddProducerEvent? && op.producer == p && op.eventType == t && LastOk(ops))
     || (TypeThere(before, p, t)
         && !(LastOk(ops) && (op == RemoveProducerEvent(p, t) || op == UnregisterProducer(p)))))
  }

  // ------------------------------------------------------------------ one step

  lemma {:induction false} StepConsumers(r: Router, op: Op, c: nat)
    ensures var s := Step(r, op);
      c in s.router.consumers <==>
        (op.RegisterConsumer? && r.nextConsumer == c)
        || (c in r.consumers && !(op == UnregisterConsumer(c) && s.code == Ok))
  {
  }

  lemma {:induction false} StepSubs(r: Router, op: Op, x: Sub)
    requires Consistent(r)
    ensures var s := Step(r, op);
      x in s.router.subs <==>
        (op.AddSubscription? && op.sub == x && s.code == Ok)
        || (x in r.subs && !(s.code == Ok && (op == RemoveSubscription(x) || op == UnregisterConsumer(x.consumer))))
  {
    match op {
      case UnregisterConsumer(c) => WithoutConsumerIs(r.subs, c);
      case RemoveSubscription(s) => WithoutIs(r.subs, s);
      case _ =>
    }
  }

  lemma {:induction false} StepProducers(r: Router, op: Op, p: nat)
    requires Consistent(r)
    ensures var s := Step(r, op);
      p in s.router.types <==>
        (op.RegisterProducer? && r.nextProducer == p)
        || (p in r.types && !(op == UnregisterProducer(p) && s.code == Ok))
  {
  }

  predicate Produces(r: Router, p: nat, t: string) {
    p in r.types && t in r.types[p]
  }

  lemma {:induction false} StepTypes(r: Router, op: Op, p: nat, t: string)
    requires Consistent(r)
    ensures var s := Step(r, op);
      Produces(s.router, p, t) <==>
        (op.AddProducerEvent? && op.producer == p && op.eventType == t && s.code == Ok)
        || (Produces(r, p, t) && !(s.code == Ok && (op == RemoveProducerEvent(p, t) || op == UnregisterProducer(p))))
  {
    if op.RegisterProducer? {
      assert r.nextProducer !in r.types;
    }
  }

  lemma {:induction false} LastStep(ops: seq<Op>)
    requires ops != []
    ensures var before, op := ops[..|ops| - 1], ops[|ops| - 1];
      && Run(Init(), ops) == Step(Run(Init(), before), op).router
      && Consistent(Run(Init(), before))
  {
    var before, op := ops[..|ops| - 1], ops[|ops| - 1];
    assert ops == before + [op];
    RunSnoc(Init(), before, op);
    RunKeeps(Init(), before);
  }

  // ------------------------------------------------------------------ every run

  // The router's tables are what the requests and their answers say.
  lemma {:induction false} TablesAreHistory(ops: seq<Op>, c: nat, x: Sub, p: nat, t: string)
    ensures var r := Run(Init(), ops);
      && (c in r.consumers <==> ConsumerThere(ops, c))
      && (x in r.subs <==> SubThere(ops, x))
      && (p in r.types <==> ProducerThere(ops, p))
      && (Produces(r, p, t) <==> TypeThere(ops, p, t))
  {
    if ops != [] {
      var before, op := ops[..|ops| - 1], ops[|ops| - 1];
      TablesAreHistory(before, c, x, p, t);
      LastStep(ops);
      StepConsumers(Run(Init(), before), op, c);
      StepSubs(Run(Init(), before), op, x);
      StepProducers(Run(Init(), before), op, p);
      StepTypes(Run(Init(), before), op, p, t);
    }
  }

  // ------------------------------------------------------------------ codes

  lemma {:induction false} AcceptedByAll(pairs: seq<Pair>, answers: Answers)
    ensures Accepted(pairs, answers) == |pairs| <==> forall x :: x in pairs ==> answers(x)
  {
    var n := Accepted(pairs, answers);
    if n == |pairs| {
      assert forall i :: 0 <= i < |pairs| ==> answers(pairs[i]);
    } else {
      assert pairs[n] in pairs;
    }
  }

  // A subscription is answered Ok if and only if its consumer is registered, it is not there already and every producer
  // of its type accepts it.
  lemma {:induction false} SubscribeCode(r: Router, s: Sub, answers: Answers)
    requires Consistent(r)
    ensures Step(r, AddSubscription(s, answers)).code ==
      if s.consumer !in r.consumers then InvalidArgument
      else if s in r.subs || exists p :: Produces(r, p, s.eventType) && !answers(Pair(p, s)) then Failure
      else Ok
  {
    var pairs := PairsOfSub(r.producers, r.types, s);
    PairsOfSubAre(r.producers, r.types, s);
    AcceptedByAll(pairs, answers);
    if x :| x in pairs && !answers(x) {
      assert Produces(r, x.producer, s.eventType) && x == Pair(x.producer, s);
    }
    if p :| Produces(r, p, s.eventType) && !answers(Pair(p, s)) {
      assert Pair(p, s) in pairs;
    }
  }

  // An announcement is answered Ok if and only if the producer is registered, does not produce the type already and
  // accepts every live subscription to it.
  lemma {:induction false} AnnounceCode(r: Router, p: nat, t: string, answers: Answers)
    requires Consistent(r)
    ensures Step(r, AddProducerEvent(p, t, answers)).code ==
      if p !in r.types then InvalidArgument
      else if t in r.types[p] || exists s :: s in r.subs && s.eventType == t && !answers(Pair(p, s)) then Failure
      else Ok
  {
    var pairs := PairsOfType(p, t, r.subs);
    PairsOfTypeAre(p, t, r.subs);
    AcceptedByAll(pairs, answers);
    if x :| x in pairs && !answers(x) {
      assert x == Pair(p, x.sub) && x.sub in r.subs;
    }
    if s :| s in r.subs && s.eventType == t && !answers(Pair(p, s)) {
      assert Pair(p, s) in pairs;
    }
  }

  // What the other requests are answered.
  lemma {:induction false} OtherCodes(r: Router, op: Op)
    requires !op.AddSubscription? && !op.AddProducerEvent?
    ensures Step(r, op).code ==
      match op
      case RegisterConsumer => Ok
      case RegisterProducer => Ok
      case UnregisterConsumer(c) => if c in r.consumers then Ok else InvalidArgument
      case UnregisterProducer(p) => if p in r.types then Ok else InvalidArgument
      case RemoveSubscription(s) =>
        if s.consumer !in r.consumers then InvalidArgument else if s in r.subs then Ok else Failure
      case RemoveProducerEvent(p, t) =>
        if p !in r.types then InvalidArgument else if t in r.types[p] then Ok else Failure
      case Notify(p, _, _, ok) => if p !in r.types then InvalidArgument else if ok then Ok else Failure
      case Deliver(t) => if t < |r.tickets| && r.tickets[t].stage.Queued? then Ok else NotExist
      case Return(t) => if t < |r.tickets| && r.tickets[t].stage.Handled? then Ok else NotExist
      case _ => Ok
  {
  }

  // In every run what decides an answer is what was asked before: the tables above.
  lemma {:induction false} SubscribeAnswered(ops: seq<Op>, s: Sub, answers: Answers)
    ensures Step(Run(Init(), ops), AddSubscription(s, answers)).code ==
      if !ConsumerThere(ops, s.consumer) then InvalidArgument
      else if SubThere(ops, s) || exists p :: TypeThere(ops, p, s.eventType) && !answers(Pair(p, s)) then Failure
      else Ok
  {
    var r := Run(Init(), ops);
    RunKeeps(Init(), ops);
    SubscribeCode(r, s, answers);
    forall p ensures Produces(r, p, s.eventType) <==> TypeThere(ops, p, s.eventType) {
      TablesAreHistory(ops, s.consumer, s, p, s.eventType);
    }
    TablesAreHistory(ops, s.consumer, s, 0, s.eventType);
  }

  lemma {:induction false} AnnounceAnswered(ops: seq<Op>, p: nat, t: string, answers: Answers)
    ensures Step(Run(Init(), ops), AddProducerEvent(p, t, answers)).code ==
      if !ProducerThere(ops, p) then InvalidArgument
      else if TypeThere(ops, p, t) || exists s :: SubThere(ops, s) && s.eventType == t && !answers(Pair(p, s)) then
        Failure
      else Ok
  {
    var r := Run(Init(), ops);
    RunKeeps(Init(), ops);
    AnnounceCode(r, p, t, answers);
    forall s ensures s in r.subs <==> SubThere(ops, s) {
      TablesAreHistory(ops, 0, s, p, t);
    }
    TablesAreHistory(ops, 0, Sub(0, t, 0), p, t);
  }
}
