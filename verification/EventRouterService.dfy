/** The router as it is kept: tables that each call changes, each call proved to be one Step of the machine. */
module EventRouterService {
  import opened Common
  import opened EventRouterSpec

  lemma {:induction false} AddsSnoc(pairs: seq<Pair>, i: nat)
    requires i < |pairs|
    ensures Adds(pairs[..i]) + [AddFilter(pairs[i], true)] == Adds(pairs[..i + 1])
    ensures Removes(pairs[..i]) + [RemoveFilter(pairs[i])] == Removes(pairs[..i + 1])
  {
  }

  // How far an offer gets is determined by what that means.
  lemma {:induction false} AcceptedIs(pairs: seq<Pair>, answers: Answers, n: nat)
    requires n <= |pairs| && (forall i :: 0 <= i < n ==> answers(pairs[i])) && (n < |pairs| ==> !answers(pairs[n]))
    ensures n == Accepted(pairs, answers)
  {
    if n > 0 {
      AcceptedIs(pairs[1..], answers, n - 1);
    }
  }

  method DropConsumer(subs: seq<Sub>, c: nat) returns (kept: seq<Sub>)
    ensures kept == WithoutConsumer(subs, c)
  {
    kept := [];
    for i := 0 to |subs|
      invariant kept + WithoutConsumer(subs[i..], c) == WithoutConsumer(subs, c)
    {
      assert subs[i..][1..] == subs[i + 1..];
      var x := if subs[i].consumer == c then [] else [subs[i]];
      ConcatAssoc(kept, x, WithoutConsumer(subs[i + 1..], c));
      kept := kept + x;
    }
  }

  // Go through the producers: those that produce the subscription's type.
  method SelectForSub(producers: seq<nat>, types: map<nat, set<string>>, s: Sub) returns (pairs: seq<Pair>)
    ensures pairs == PairsOfSub(producers, types, s)
  {
    pairs := [];
    for i := 0 to |producers|
      invariant pairs + PairsOfSub(producers[i..], types, s) == PairsOfSub(producers, types, s)
    {
      assert producers[i..][1..] == producers[i + 1..];
      var p := producers[i];
      var x := if p in types && s.eventType in types[p] then [Pair(p, s)] else [];
      ConcatAssoc(pairs, x, PairsOfSub(producers[i + 1..], types, s));
      pairs := pairs + x;
    }
  }

  // Go through the subscriptions: those to the event type.
  method SelectForType(p: nat, t: string, subs: seq<Sub>) returns (pairs: seq<Pair>)
    ensures pairs == PairsOfType(p, t, subs)
  {
    pairs := [];
    for i := 0 to |subs|
      invariant pairs + PairsOfType(p, t, subs[i..]) == PairsOfType(p, t, subs)
    {
      assert subs[i..][1..] == subs[i + 1..];
      var x := if subs[i].eventType == t then [Pair(p, subs[i])] else [];
      ConcatAssoc(pairs, x, PairsOfType(p, t, subs[i + 1..]));
      pairs := pairs + x;
    }
  }

  // Go through the consumer's subscriptions and, for each, through the producers.
  method SelectForConsumer(producers: seq<nat>, types: map<nat, set<string>>, subs: seq<Sub>, c: nat)
    returns (pairs: seq<Pair>)
    ensures pairs == PairsOfConsumer(producers, types, subs, c)
  {
    pairs := [];
    for i := 0 to |subs|
      invariant pairs + PairsOfConsumer(producers, types, subs[i..], c)
             == PairsOfConsumer(producers, types, subs, c)
    {
      assert subs[i..][1..] == subs[i + 1..];
      var x := [];
      if subs[i].consumer == c {
        x := SelectForSub(producers, types, subs[i]);
      }
      ConcatAssoc(pairs, x, PairsOfConsumer(producers, types, subs[i + 1..], c));
      pairs := pairs + x;
    }
  }

  class EventRouter {
    var consumers: set<nat>
    var producers: seq<nat>
    var types: map<nat, set<string>>
    var subs: seq<Sub>
    var tickets: seq<Ticket>
    var nextConsumer: nat
    var nextProducer: nat
    ghost var calls: seq<Call>

    ghost function State(): Router
      reads this
    {
      Router(consumers, producers, types, subs, tickets, nextConsumer, nextProducer, calls)
    }

    constructor ()
      ensures State() == Init()
    {
      consumers, producers, types, subs, tickets := {}, [], map[], [], [];
      nextConsumer, nextProducer, calls := 0, 0, [];
    }

    method TakeBack(pairs: seq<Pair>)
      modifies this`calls
      ensures calls == old(calls) + Removes(pairs)
    {
      for i := 0 to |pairs|
        invariant calls == old(calls) + Removes(pairs[..i])
      {
        AddsSnoc(pairs, i);
        calls := calls + [RemoveFilter(pairs[i])];
      }
      assert pairs[..|pairs|] == pairs;
    }

    // Call addFilter on one producer after the other; the first refusal undoes the offer.
    method OfferAll(pairs: seq<Pair>, answers: Answers) returns (ok: bool)
      modifies this`calls
      ensures calls == old(calls) + Offer(pairs, answers)
      ensures ok <==> Accepted(pairs, answers) == |pairs|
    {
      for i := 0 to |pairs|
        invariant calls == old(calls) + Adds(pairs[..i])
        invariant forall j :: 0 <= j < i ==> answers(pairs[j])
      {
        if !answers(pairs[i]) {
          AcceptedIs(pairs, answers, i);
          calls := calls + [AddFilter(pairs[i], false)];
          TakeBack(pairs[..i]);
          return false;
        }
        AddsSnoc(pairs, i);
        calls := calls + [AddFilter(pairs[i], true)];
      }
      AcceptedIs(pairs, answers, |pairs|);
      assert pairs[..|pairs|] == pairs;
      ok := true;
    }

    method RegisterNewConsumer() returns (c: nat)
      modifies this
      ensures Reply(State(), Ok) == Step(old(State()), RegisterConsumer) && c == old(nextConsumer)
    {
      c := nextConsumer;
      consumers := consumers + {c};
      nextConsumer := nextConsumer + 1;
    }

    method Unregister(c: nat) returns (rc: ReturnCode)
      modifies this
      ensures Reply(State(), rc) == Step(old(State()), UnregisterConsumer(c))
    {
      if c !in consumers {
        return InvalidArgument;
      }
      var pairs := SelectForConsumer(producers, types, subs, c);
      TakeBack(pairs);
      subs := DropConsumer(subs, c);
      consumers := consumers - {c};
      rc := Ok;
    }

    method Subscribe(s: Sub, answers: Answers) returns (rc: ReturnCode)
      modifies this
      ensures Reply(State(), rc) == Step(old(State()), AddSubscription(s, answers))
    {
      if s.consumer !in consumers {
        return InvalidArgument;
      }
      if s in subs {
        return Failure;
      }
      var pairs := SelectForSub(producers, types, s);
      var ok := OfferAll(pairs, answers);
      if !ok {
        return Failure;
      }
      subs := subs + [s];
      rc := Ok;
    }

    method Unsubscribe(s: Sub) returns (rc: ReturnCode)
      modifies this
      ensures Reply(State(), rc) == Step(old(State()), RemoveSubscription(s))
    {
      if s.consumer !in consumers {
        return InvalidArgument;
      }
      if s !in subs {
        return Failure;
      }
      var pairs := SelectForSub(producers, types, s);
      TakeBack(pairs);
      subs := DropAll(subs, s);
      rc := Ok;
    }

    method RegisterNewProducer() returns (p: nat)
      modifies this
      ensures Reply(State(), Ok) == Step(old(State()), RegisterProducer) && p == old(nextProducer)
    {
      p := nextProducer;
      producers := producers + [p];
      types := types[p := {}];
      nextProducer := nextProducer + 1;
    }

    method UnregisterFrom(p: nat) returns (rc: ReturnCode)
      modifies this
      ensures Reply(State(), rc) == Step(old(State()), UnregisterProducer(p))
    {
      if p !in types {
        return InvalidArgument;
      }
      producers := DropAll(producers, p);
      types := types - {p};
      rc := Ok;
    }

    method Announce(p: nat, eventType: string, answers: Answers) returns (rc: ReturnCode)
      modifies this
      ensures Reply(State(), rc) == Step(old(State()), AddProducerEvent(p, eventType, answers))
    {
      if p !in types {
        return InvalidArgument;
      }
      if eventType in types[p] {
        return Failure;
      }
      var pairs := SelectForType(p, eventType, subs);
      var ok := OfferAll(pairs, answers);
      if !ok {
        return Failure;
      }
      types := types[p := types[p] + {eventType}];
      rc := Ok;
    }

    method Withdraw(p: nat, eventType: string) returns (rc: ReturnCode)
      modifies this
      ensures Reply(State(), rc) == Step(old(State()), RemoveProducerEvent(p, eventType))
    {
      if p !in types {
        return InvalidArgument;
      }
      if eventType !in types[p] {
        return Failure;
      }
      var pairs := SelectForType(p, eventType, subs);
      TakeBack(pairs);
      types := types[p := types[p] - {eventType}];
      rc := Ok;
    }

    // ok is false when the notification cannot be queued.
    method Accept(p: nat, s: Sub, value: int, ok: bool) returns (rc: ReturnCode)
      modifies this
      ensures Reply(State(), rc) == Step(old(State()), Notify(p, s, value, ok))
    {
      if p !in types {
        return InvalidArgument;
      }
      if !ok {
        return Failure;
      }
      tickets := tickets + [Ticket(p, s, value, Queued)];
      rc := Ok;
    }

    // The dispatching thread: call the consumer if its subscription is still there, then give the value back.
    method Dispatch(t: nat) returns (rc: ReturnCode)
      modifies this
      ensures Reply(State(), rc) == Step(old(State()), Deliver(t))
    {
      if t >= |tickets| || !tickets[t].stage.Queued? {
        return NotExist;
      }
      var called := tickets[t].sub in subs;
      if called {
        calls := calls + [ToConsumer(t)];
      }
      tickets := tickets[t := tickets[t].(stage := Handled(called))];
      rc := Ok;
    }

    method GiveBack(t: nat) returns (rc: ReturnCode)
      modifies this
      ensures Reply(State(), rc) == Step(old(State()), Return(t))
    {
      if t >= |tickets| || !tickets[t].stage.Handled? {
        return NotExist;
      }
      calls := calls + [DoneWithValue(t)];
      tickets := tickets[t := tickets[t].(stage := Returned(tickets[t].stage.called))];
      rc := Ok;
    }
  }
}
