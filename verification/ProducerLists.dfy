/**
 The router and a producer's own list of filters, together.

 The router tells a producer which filter to remove; the producer erases the first one of the same consumer and
 event type.  The results say, for every run of the router, when the list holds at every moment exactly what the
 router means it to hold: if and only if every removal names the oldest live subscription of its consumer and
 event type, and no second subscription of one is taken back after a refusal.
*/
module ProducerLists {
  import opened Common
  import opened EventRouterSpec
  import opened HeldFilters
  import opened EventRouterProofs
  import opened EventProducerModule

  // Whatever the order of registrations and whatever producers refuse: each registered producer, judged by the
  // calls it received, holds exactly the live subscriptions to the types it produces, and no call was out of place.
  lemma {:induction false} ProducersAgree(ops: seq<Op>, p: nat, s: Sub)
    requires p in Run(Init(), ops).types
    ensures var r := Run(Init(), ops);
      && (Pair(p, s) in Held({}, r.calls) <==> s in r.subs && s.eventType in r.types[p])
      && Balanced({}, r.calls)
  {
    RunKeeps(Init(), ops);
    assert Agrees(Run(Init(), ops), Held({}, Run(Init(), ops).calls), Pair(p, s));
  }

  // The list of producer p after one call of the router.
  function ListStep(list: seq<Sub>, c: Call, p: nat): seq<Sub> {
    match c
    case AddFilter(x, ok) => if ok && x.producer == p then list + [x.sub] else list
    case RemoveFilter(x) => if x.producer == p then RemoveFirst(list, x.sub) else list
    case _ => list
  }

  function ListAfter(list: seq<Sub>, calls: seq<Call>, p: nat): seq<Sub>
    decreases |calls|
  {
    if calls == [] then list else ListAfter(ListStep(list, calls[0], p), calls[1..], p)
  }

  function HeldStep(h: set<Pair>, c: Call): set<Pair> {
    match c
    case AddFilter(x, ok) => if ok then h + {x} else h
    case RemoveFilter(x) => h - {x}
    case _ => h
  }

  // The list holds what the router means p to hold, each filter once.
  ghost predicate Agree(list: seq<Sub>, h: set<Pair>, p: nat) {
    NoDup(list) && forall s :: s in list <==> Pair(p, s) in h
  }

  // And it does so before and after every one of the calls.
  ghost predicate AgreeThroughout(list: seq<Sub>, h: set<Pair>, calls: seq<Call>, p: nat)
    decreases |calls|
  {
    && Agree(list, h, p)
    && (calls == [] || AgreeThroughout(ListStep(list, calls[0], p), HeldStep(h, calls[0]), calls[1..], p))
  }

  // Every removal erases the filter it means.
  predicate RemovesMeant(list: seq<Sub>, calls: seq<Call>, p: nat)
    decreases |calls|
  {
    calls == [] ||
    ((calls[0].RemoveFilter? && calls[0].pair.producer == p ==>
        FirstLike(list, calls[0].pair.sub) == Some(calls[0].pair.sub))
     && RemovesMeant(ListStep(list, calls[0], p), calls[1..], p))
  }

  lemma {:induction false} RemoveFirstIs(list: seq<Sub>, s: Sub)
    requires NoDup(list) && FirstLike(list, s).Some?
    ensures var t := RemoveFirst(list, s);
      NoDup(t) && forall x :: x in t <==> x in list && Some(x) != FirstLike(list, s)
  {
    NoDupTail(list);
    if !SameKey(list[0], s) {
      RemoveFirstIs(list[1..], s);
      RemoveTakesFirstLike(list[1..], s);
      var t := RemoveFirst(list[1..], s);
      assert list[0] !in t;
      NoDupConcat([list[0]], t);
    }
  }

  lemma {:induction false} CallAgrees(list: seq<Sub>, h: set<Pair>, c: Call, p: nat)
    requires Agree(list, h, p) && Balanced(h, [c])
    ensures Agree(ListStep(list, c, p), HeldStep(h, c), p) <==>
      (c.RemoveFilter? && c.pair.producer == p ==> FirstLike(list, c.pair.sub) == Some(c.pair.sub))
  {
    match c {
      case AddFilter(x, ok) =>
        if ok && x.producer == p {
          assert x == Pair(p, x.sub);
          NoDupConcat(list, [x.sub]);
        }
      case RemoveFilter(x) =>
        if x.producer == p {
          assert x == Pair(p, x.sub) && x.sub in list;
          RemoveTakesFirstLike(list, x.sub);
          assert SameKey(x.sub, x.sub);
          RemoveFirstIs(list, x.sub);
          var after := RemoveFirst(list, x.sub);
          assert FirstLike(list, x.sub) != Some(x.sub) ==> x.sub in after;
        }
      case _ =>
    }
  }

  // The list agrees with what the router means at every moment if and only if every removal erases the filter it means.
  lemma {:induction false} AgreeThroughoutIff(list: seq<Sub>, h: set<Pair>, calls: seq<Call>, p: nat)
    requires Agree(list, h, p) && Balanced(h, calls)
    ensures AgreeThroughout(list, h, calls, p) <==> RemovesMeant(list, calls, p)
    decreases |calls|
  {
    if calls != [] {
      var c := calls[0];
      assert [c] + calls[1..] == calls && [c][1..] == [];
      HeldConcat(h, [c], calls[1..]);
      assert Held(h, [c]) == HeldStep(h, c);
      CallAgrees(list, h, c, p);
      if Agree(ListStep(list, c, p), HeldStep(h, c), p) {
        AgreeThroughoutIff(ListStep(list, c, p), HeldStep(h, c), calls[1..], p);
      }
    }
  }

  lemma {:induction false} CallsConcat(list: seq<Sub>, a: seq<Call>, b: seq<Call>, p: nat)
    ensures ListAfter(list, a + b, p) == ListAfter(ListAfter(list, a, p), b, p)
    ensures RemovesMeant(list, a + b, p) <==> RemovesMeant(list, a, p) && RemovesMeant(ListAfter(list, a, p), b, p)
    decreases |a|
  {
    if a == [] {
      assert a + b == b;
    } else {
      assert (a + b)[1..] == a[1..] + b;
      CallsConcat(ListStep(list, a[0], p), a[1..], b, p);
    }
  }

  // ------------------------------------------------------------------ one consumer and event type

  // The entries of s's consumer and event type, oldest first.
  function Like(list: seq<Sub>, s: Sub): seq<Sub> {
    if list == [] then [] else (if SameKey(list[0], s) then [list[0]] else []) + Like(list[1..], s)
  }

  lemma {:induction false} LikeConcat(a: seq<Sub>, b: seq<Sub>, s: Sub)
    ensures Like(a + b, s) == Like(a, s) + Like(b, s)
  {
    if a == [] {
      assert a + b == b;
    } else {
      assert (a + b)[1..] == a[1..] + b;
      LikeConcat(a[1..], b, s);
      ConcatAssoc(if SameKey(a[0], s) then [a[0]] else [], Like(a[1..], s), Like(b, s));
    }
  }

  lemma {:induction false} LikeSameKey(list: seq<Sub>, s: Sub, x: Sub)
    requires SameKey(s, x)
    ensures Like(list, s) == Like(list, x)
  {
    if list != [] {
      LikeSameKey(list[1..], s, x);
    }
  }

  lemma {:induction false} FirstLikeIs(list: seq<Sub>, s: Sub)
    ensures FirstLike(list, s) == if Like(list, s) == [] then None else Some(Like(list, s)[0])
  {
    if list != [] && !SameKey(list[0], s) {
      FirstLikeIs(list[1..], s);
    }
  }

  lemma {:induction false} LikeHas(list: seq<Sub>, s: Sub)
    ensures s in Like(list, s) <==> s in list
  {
    if list != [] {
      LikeHas(list[1..], s);
    }
  }

  lemma {:induction false} LikeAfterRemoval(list: seq<Sub>, g: Sub, s: Sub)
    ensures Like(RemoveFirst(list, g), s) ==
      if SameKey(g, s) && Like(list, s) != [] then Like(list, s)[1..] else Like(list, s)
  {
    if list != [] {
      var rest := RemoveFirst(list[1..], g);
      if !SameKey(list[0], g) {
        LikeAfterRemoval(list[1..], g, s);
        assert ([list[0]] + rest)[1..] == rest;
      }
    }
  }

  // ------------------------------------------------------------------ batches of calls

  // What a batch of pairs means for p.
  function ForP(pairs: seq<Pair>, p: nat): seq<Sub> {
    if pairs == [] then [] else (if pairs[0].producer == p then [pairs[0].sub] else []) + ForP(pairs[1..], p)
  }

  lemma {:induction false} ForPConcat(a: seq<Pair>, b: seq<Pair>, p: nat)
    ensures ForP(a + b, p) == ForP(a, p) + ForP(b, p)
  {
    if a == [] {
      assert a + b == b;
    } else {
      assert (a + b)[0] == a[0] && (a + b)[1..] == a[1..] + b;
      ForPConcat(a[1..], b, p);
      ConcatAssoc(if a[0].producer == p then [a[0].sub] else [], ForP(a[1..], p), ForP(b, p));
    }
  }

  lemma {:induction false} ForPPrefix(pairs: seq<Pair>, n: nat, p: nat)
    requires n <= |pairs| && |ForP(pairs, p)| <= 1
    ensures ForP(pairs[..n], p) == [] || ForP(pairs[..n], p) == ForP(pairs, p)
  {
    assert pairs == pairs[..n] + pairs[n..];
    ForPConcat(pairs[..n], pairs[n..], p);
  }

  lemma {:induction false} ForPHas(pairs: seq<Pair>, p: nat, s: Sub)
    ensures s in ForP(pairs, p) <==> Pair(p, s) in pairs
  {
    if pairs != [] {
      ForPHas(pairs[1..], p, s);
      assert pairs == [pairs[0]] + pairs[1..];
    }
  }

  function RemoveEach(list: seq<Sub>, gone: seq<Sub>): seq<Sub>
    decreases |gone|
  {
    if gone == [] then list else RemoveEach(RemoveFirst(list, gone[0]), gone[1..])
  }

  predicate MeantEach(list: seq<Sub>, gone: seq<Sub>)
    decreases |gone|
  {
    gone == [] || (FirstLike(list, gone[0]) == Some(gone[0]) && MeantEach(RemoveFirst(list, gone[0]), gone[1..]))
  }

  lemma {:induction false} AddsAre(list: seq<Sub>, pairs: seq<Pair>, p: nat)
    ensures ListAfter(list, Adds(pairs), p) == list + ForP(pairs, p) && RemovesMeant(list, Adds(pairs), p)
    decreases |pairs|
  {
    if pairs == [] {
      assert list + [] == list;
    } else {
      assert Adds(pairs)[1..] == Adds(pairs[1..]);
      var x := if pairs[0].producer == p then [pairs[0].sub] else [];
      assert list + [] == list;
      AddsAre(list + x, pairs[1..], p);
      ConcatAssoc(list, x, ForP(pairs[1..], p));
    }
  }

  lemma {:induction false} RemovesAre(list: seq<Sub>, pairs: seq<Pair>, p: nat)
    ensures ListAfter(list, Removes(pairs), p) == RemoveEach(list, ForP(pairs, p))
    ensures RemovesMeant(list, Removes(pairs), p) <==> MeantEach(list, ForP(pairs, p))
    decreases |pairs|
  {
    if pairs != [] {
      assert Removes(pairs)[1..] == Removes(pairs[1..]);
      var rest := ForP(pairs[1..], p);
      if pairs[0].producer == p {
        assert ([pairs[0].sub] + rest)[1..] == rest;
        RemovesAre(RemoveFirst(list, pairs[0].sub), pairs[1..], p);
      } else {
        assert [] + rest == rest;
        RemovesAre(list, pairs[1..], p);
      }
    }
  }

  // Removing, in their order, all entries of some consumers and event types erases each one as it is meant.
  lemma {:induction false} RemoveInOrder(list: seq<Sub>, gone: seq<Sub>, s: Sub)
    requires forall x :: x in gone ==> Like(list, x) == Like(gone, x)
    ensures MeantEach(list, gone)
    ensures Like(RemoveEach(list, gone), s) == if Like(gone, s) == [] then Like(list, s) else []
    decreases |gone|
  {
    if gone != [] {
      var g, rest := gone[0], gone[1..];
      var list' := RemoveFirst(list, g);
      assert gone == [g] + rest && g in gone;
      FirstLikeIs(list, g);
      forall x | x in rest ensures Like(list', x) == Like(rest, x) {
        LikeShrinks(list, gone, x);
      }
      RemoveInOrder(list', rest, s);
      if SameKey(g, s) {
        LikeSameKey(list, g, s);
        LikeSameKey(gone, g, s);
        LikeShrinks(list, gone, s);
      } else {
        LikeAfterRemoval(list, g, s);
        assert Like(gone, s) == [] + Like(rest, s);
      }
    }
  }

  lemma {:induction false} LikeShrinks(list: seq<Sub>, gone: seq<Sub>, x: Sub)
    requires gone != [] && Like(list, x) == Like(gone, x)
    ensures Like(RemoveFirst(list, gone[0]), x) == Like(gone[1..], x)
  {
    LikeAfterRemoval(list, gone[0], x);
    var rest := Like(gone[1..], x);
    if SameKey(gone[0], x) {
      assert Like(gone, x) == [gone[0]] + rest;
    } else {
      assert Like(gone, x) == [] + rest;
    }
  }

  // An offer: all filters are added, or those accepted before the refusal are added and taken back.
  lemma {:induction false} OfferIs(list: seq<Sub>, pairs: seq<Pair>, answers: Answers, p: nat)
    ensures var n := Accepted(pairs, answers);
      if n == |pairs| then
        ListAfter(list, Offer(pairs, answers), p) == list + ForP(pairs, p)
        && RemovesMeant(list, Offer(pairs, answers), p)
      else
        var tried := ForP(pairs[..n], p);
        ListAfter(list, Offer(pairs, answers), p) == RemoveEach(list + tried, tried)
        && (RemovesMeant(list, Offer(pairs, answers), p) <==> MeantEach(list + tried, tried))
  {
    var n := Accepted(pairs, answers);
    if n == |pairs| {
      AddsAre(list, pairs, p);
    } else {
      var some, refusal := pairs[..n], [AddFilter(pairs[n], false)];
      var tried := ForP(some, p);
      AddsAre(list, some, p);
      CallsConcat(list, Adds(some), refusal, p);
      assert refusal[1..] == [];
      assert ListAfter(list + tried, refusal, p) == list + tried;
      RemovesAre(list + tried, some, p);
      CallsConcat(list, Adds(some) + refusal, Removes(some), p);
    }
  }

  // ------------------------------------------------------------------ the pairs of each operation

  function OfType(subs: seq<Sub>, t: string): seq<Sub> {
    if subs == [] then [] else (if subs[0].eventType == t then [subs[0]] else []) + OfType(subs[1..], t)
  }

  function OfConsumer(subs: seq<Sub>, c: nat, types: set<string>): seq<Sub> {
    if subs == [] then []
    else
      (if subs[0].consumer == c && subs[0].eventType in types then [subs[0]] else []) + OfConsumer(subs[1..], c, types)
  }

  lemma {:induction false} ForPSub(producers: seq<nat>, types: map<nat, set<string>>, s: Sub, p: nat)
    requires NoDup(producers)
    ensures ForP(PairsOfSub(producers, types, s), p) ==
      if p in producers && p in types && s.eventType in types[p] then [s] else []
  {
    if producers != [] {
      NoDupTail(producers);
      ForPSub(producers[1..], types, s, p);
      var q := producers[0];
      var first := if q in types && s.eventType in types[q] then [Pair(q, s)] else [];
      ForPConcat(first, PairsOfSub(producers[1..], types, s), p);
      assert first != [] ==> first[1..] == [];
    }
  }

  lemma {:induction false} ForPType(q: nat, t: string, subs: seq<Sub>, p: nat)
    ensures ForP(PairsOfType(q, t, subs), p) == if q == p then OfType(subs, t) else []
  {
    if subs != [] {
      ForPType(q, t, subs[1..], p);
      var first := if subs[0].eventType == t then [Pair(q, subs[0])] else [];
      ForPConcat(first, PairsOfType(q, t, subs[1..]), p);
      assert first != [] ==> first[1..] == [];
    }
  }

  lemma {:induction false} ForPConsumer(producers: seq<nat>, types: map<nat, set<string>>, subs: seq<Sub>, c: nat,
                                        p: nat)
    requires NoDup(producers)
    ensures ForP(PairsOfConsumer(producers, types, subs, c), p) ==
      if p in producers && p in types then OfConsumer(subs, c, types[p]) else []
  {
    if subs != [] {
      ForPConsumer(producers, types, subs[1..], c, p);
      ForPSub(producers, types, subs[0], p);
      var first := if subs[0].consumer == c then PairsOfSub(producers, types, subs[0]) else [];
      ForPConcat(first, PairsOfConsumer(producers, types, subs[1..], c), p);
    }
  }

  lemma {:induction false} LikeOfType(subs: seq<Sub>, t: string, s: Sub)
    ensures Like(OfType(subs, t), s) == if s.eventType == t then Like(subs, s) else []
  {
    if subs != [] {
      LikeOfType(subs[1..], t, s);
      var first := if subs[0].eventType == t then [subs[0]] else [];
      LikeConcat(first, OfType(subs[1..], t), s);
      assert first != [] ==> first[1..] == [];
    }
  }

  lemma {:induction false} LikeOfConsumer(subs: seq<Sub>, c: nat, types: set<string>, s: Sub)
    ensures Like(OfConsumer(subs, c, types), s) ==
      if s.consumer == c && s.eventType in types then Like(subs, s) else []
  {
    if subs != [] {
      LikeOfConsumer(subs[1..], c, types, s);
      var first := if subs[0].consumer == c && subs[0].eventType in types then [subs[0]] else [];
      LikeConcat(first, OfConsumer(subs[1..], c, types), s);
      assert first != [] ==> first[1..] == [];
    }
  }

  lemma {:induction false} LikeWithoutConsumer(subs: seq<Sub>, c: nat, s: Sub)
    ensures Like(WithoutConsumer(subs, c), s) == if s.consumer == c then [] else Like(subs, s)
  {
    if subs != [] {
      LikeWithoutConsumer(subs[1..], c, s);
      var first := if subs[0].consumer == c then [] else [subs[0]];
      LikeConcat(first, WithoutConsumer(subs[1..], c), s);
      assert first != [] ==> first[1..] == [];
    }
  }

  lemma {:induction false} LikeWithoutOther(subs: seq<Sub>, g: Sub, s: Sub)
    requires !SameKey(g, s)
    ensures Like(Without(subs, g), s) == Like(subs, s)
  {
    if subs != [] {
      LikeWithoutOther(subs[1..], g, s);
      var first := if subs[0] == g then [] else [subs[0]];
      LikeConcat(first, Without(subs[1..], g), s);
      assert first != [] ==> first[1..] == [];
    }
  }

  lemma {:induction false} WithoutAbsent(subs: seq<Sub>, g: Sub)
    requires g !in subs
    ensures Without(subs, g) == subs
  {
    if subs != [] {
      WithoutAbsent(subs[1..], g);
    }
  }

  // The oldest of its consumer and event type is where the erasure hits.
  lemma {:induction false} WithoutOldest(subs: seq<Sub>, g: Sub)
    requires NoDup(subs) && FirstLike(subs, g) == Some(g)
    ensures Without(subs, g) == RemoveFirst(subs, g)
  {
    NoDupTail(subs);
    if SameKey(subs[0], g) {
      WithoutAbsent(subs[1..], g);
    } else {
      assert subs[0] != g;
      WithoutOldest(subs[1..], g);
    }
  }

  // ------------------------------------------------------------------ every step of the router

  // What p's list is to hold of s's consumer and event type.
  function Wanted(r: Router, p: nat, s: Sub): seq<Sub>
    requires p in r.types
  {
    if s.eventType in r.types[p] then Like(r.subs, s) else []
  }

  // For each consumer and event type, the list has the live subscriptions in the order they were made.
  ghost predicate InOrder(list: seq<Sub>, r: Router, p: nat) {
    if p in r.types then forall s: Sub :: Like(list, s) == Wanted(r, p, s)
    else p >= r.nextProducer ==> list == []
  }

  // What a caller can check before a step: the subscription removed is the oldest of its consumer and event type, if p
  // holds it; and a subscription that p accepts and another producer then refuses is the only one of its consumer and
  // event type.
  predicate OrderlyStep(r: Router, op: Op, p: nat) {
    match op
    case RemoveSubscription(s) =>
      s.consumer in r.consumers && s in r.subs && p in r.types && s.eventType in r.types[p] ==>
        FirstLike(r.subs, s) == Some(s)
    case AddSubscription(s, answers) =>
      var pairs := PairsOfSub(r.producers, r.types, s);
      var n := Accepted(pairs, answers);
      s.consumer in r.consumers && s !in r.subs && n < |pairs| && Pair(p, s) in pairs[..n] ==>
        FirstLike(r.subs, s).None?
    case _ => true
  }

  lemma {:induction false} AddSubscriptionOrderly(r: Router, s: Sub, answers: Answers, list: seq<Sub>, p: nat)
    requires Consistent(r) && InOrder(list, r, p) && p in r.types && s.consumer in r.consumers && s !in r.subs
    ensures var op := AddSubscription(s, answers); var list' := ListAfter(list, CallsOf(r, op), p);
      && (RemovesMeant(list, CallsOf(r, op), p) <==> OrderlyStep(r, op, p))
      && (OrderlyStep(r, op, p) ==> InOrder(list', Step(r, op).router, p))
  {
    ForPSub(r.producers, r.types, s, p);
    var pairs := PairsOfSub(r.producers, r.types, s);
    OfferInOrder(r, Step(r, AddSubscription(s, answers)).router, pairs, answers, s, list, p);
  }

  // An offer of s, accepted by all or not.
  lemma {:induction false} OfferInOrder(r: Router, r': Router, pairs: seq<Pair>, answers: Answers, s: Sub,
                                        list: seq<Sub>, p: nat)
    requires InOrder(list, r, p) && p in r.types && s !in r.subs
    requires ForP(pairs, p) == if s.eventType in r.types[p] then [s] else []
    requires r'.types == r.types && r'.nextProducer == r.nextProducer
    requires r'.subs == if Accepted(pairs, answers) == |pairs| then r.subs + [s] else r.subs
    ensures var n := Accepted(pairs, answers); var calls := Offer(pairs, answers);
      && (RemovesMeant(list, calls, p) <==>
            (n < |pairs| && Pair(p, s) in pairs[..n] ==> FirstLike(r.subs, s).None?))
      && (RemovesMeant(list, calls, p) ==> InOrder(ListAfter(list, calls, p), r', p))
  {
    if Accepted(pairs, answers) == |pairs| {
      OfferIs(list, pairs, answers, p);
      AcceptedInOrder(r, r', s, list, p);
    } else {
      RefusedInOrder(r, pairs, answers, s, list, p);
      if RemovesMeant(list, Offer(pairs, answers), p) {
        SameTables(ListAfter(list, Offer(pairs, answers), p), r, r', p);
      }
    }
  }

  // An offer of s that some producer refuses.
  lemma {:induction false} RefusedInOrder(r: Router, pairs: seq<Pair>, answers: Answers, s: Sub, list: seq<Sub>, p: nat)
    requires InOrder(list, r, p) && p in r.types && s !in r.subs
    requires Accepted(pairs, answers) < |pairs|
    requires ForP(pairs, p) == if s.eventType in r.types[p] then [s] else []
    ensures var n := Accepted(pairs, answers); var calls := Offer(pairs, answers);
      && (RemovesMeant(list, calls, p) <==> (Pair(p, s) in pairs[..n] ==> FirstLike(r.subs, s).None?))
      && (RemovesMeant(list, calls, p) ==> InOrder(ListAfter(list, calls, p), r, p))
  {
    var n := Accepted(pairs, answers);
    OfferIs(list, pairs, answers, p);
    ForPHas(pairs[..n], p, s);
    ForPPrefix(pairs, n, p);
    RefusedSecond(list, ForP(pairs[..n], p), r, s, p);
  }

  lemma {:induction false} AcceptedInOrder(r: Router, r': Router, s: Sub, list: seq<Sub>, p: nat)
    requires InOrder(list, r, p) && p in r.types && r'.types == r.types && r'.subs == r.subs + [s]
    ensures InOrder(list + if s.eventType in r.types[p] then [s] else [], r', p)
  {
    var a := if s.eventType in r.types[p] then [s] else [];
    forall x: Sub ensures Like(list + a, x) == Wanted(r', p, x) {
      assert Like(list, x) == Wanted(r, p, x);
      LikeConcat(list, a, x);
      LikeConcat(r.subs, [s], x);
      assert [s][1..] == [];
    }
  }

  // Taking one filter back again after a refusal.
  lemma {:induction false} RefusedSecond(list: seq<Sub>, tried: seq<Sub>, r: Router, s: Sub, p: nat)
    requires InOrder(list, r, p) && p in r.types && s !in r.subs
    requires tried == [] || (tried == [s] && s.eventType in r.types[p])
    ensures MeantEach(list + tried, tried) <==> tried == [] || FirstLike(r.subs, s).None?
    ensures MeantEach(list + tried, tried) ==> InOrder(RemoveEach(list + tried, tried), r, p)
  {
    if tried == [] {
      assert list + [] == list;
    } else {
      assert [s][1..] == [];
      assert Like(list, s) == Wanted(r, p, s) == Like(r.subs, s);
      LikeHas(r.subs, s);
      FirstLikeIs(r.subs, s);
      FirstLikeIs(list + [s], s);
      LikeConcat(list, [s], s);
      assert Like([s], s) == [s];
      if MeantEach(list + [s], [s]) {
        forall x: Sub ensures Like(RemoveFirst(list + [s], s), x) == Wanted(r, p, x) {
          assert Like(list, x) == Wanted(r, p, x);
          LikeAfterRemoval(list + [s], s, x);
          LikeConcat(list, [s], x);
          if SameKey(s, x) {
            LikeSameKey(list, s, x);
          }
        }
      }
    }
  }

  lemma {:induction false} RemoveSubscriptionOrderly(r: Router, s: Sub, list: seq<Sub>, p: nat)
    requires Consistent(r) && InOrder(list, r, p) && p in r.types && s.consumer in r.consumers && s in r.subs
    ensures var op := RemoveSubscription(s); var list' := ListAfter(list, CallsOf(r, op), p);
      && (RemovesMeant(list, CallsOf(r, op), p) <==> OrderlyStep(r, op, p))
      && (OrderlyStep(r, op, p) ==> InOrder(list', Step(r, op).router, p))
  {
    ForPSub(r.producers, r.types, s, p);
    RemovesAre(list, PairsOfSub(r.producers, r.types, s), p);
    assert [s][1..] == [];
    assert Like(list, s) == Wanted(r, p, s);
    FirstLikeIs(list, s);
    FirstLikeIs(r.subs, s);
    if OrderlyStep(r, RemoveSubscription(s), p) {
      OldestGone(r, Step(r, RemoveSubscription(s)).router, s, list, p);
    }
  }

  // The oldest of its consumer and event type goes, from the subscriptions and from the list of a producer of the type.
  lemma {:induction false} OldestGone(r: Router, r': Router, s: Sub, list: seq<Sub>, p: nat)
    requires InOrder(list, r, p) && p in r.types && NoDup(r.subs)
    requires r'.types == r.types && r'.subs == Without(r.subs, s)
    requires s.eventType in r.types[p] ==> FirstLike(r.subs, s) == Some(s)
    ensures InOrder(if s.eventType in r.types[p] then RemoveFirst(list, s) else list, r', p)
  {
    var list' := if s.eventType in r.types[p] then RemoveFirst(list, s) else list;
    forall x: Sub ensures Like(list', x) == Wanted(r', p, x) {
      assert Like(list, x) == Wanted(r, p, x);
      if !SameKey(s, x) {
        LikeWithoutOther(r.subs, s, x);
        LikeAfterRemoval(list, s, x);
      } else if s.eventType in r.types[p] {
        WithoutOldest(r.subs, s);
        LikeAfterRemoval(r.subs, s, x);
        LikeAfterRemoval(list, s, x);
      }
    }
  }

  // Adding an event type to p itself.
  lemma {:induction false} AddTypeOrderly(r: Router, t: string, answers: Answers, list: seq<Sub>, p: nat)
    requires Consistent(r) && InOrder(list, r, p) && p in r.types && t !in r.types[p]
    ensures var op := AddProducerEvent(p, t, answers);
      RemovesMeant(list, CallsOf(r, op), p) && InOrder(ListAfter(list, CallsOf(r, op), p), Step(r, op).router, p)
  {
    var r' := Step(r, AddProducerEvent(p, t, answers)).router;
    var pairs := PairsOfType(p, t, r.subs);
    var n := Accepted(pairs, answers);
    ForPType(p, t, r.subs, p);
    OfferIs(list, pairs, answers, p);
    if n == |pairs| {
      NewTypeInOrder(r, r', t, list, p);
    } else {
      assert pairs == pairs[..n] + pairs[n..];
      ForPConcat(pairs[..n], pairs[n..], p);
      var tried := ForP(pairs[..n], p);
      forall x: Sub ensures Like(list, x) == [] || Like(tried, x) == [] {
        assert Like(list, x) == Wanted(r, p, x);
        LikeOfType(r.subs, t, x);
        LikeConcat(tried, ForP(pairs[n..], p), x);
      }
      TakenBackInOrder(list, tried);
      forall x: Sub ensures Like(RemoveEach(list + tried, tried), x) == Wanted(r', p, x) {
        assert Like(list, x) == Wanted(r, p, x);
      }
    }
  }

  lemma {:induction false} NewTypeInOrder(r: Router, r': Router, t: string, list: seq<Sub>, p: nat)
    requires InOrder(list, r, p) && p in r.types && t !in r.types[p]
    requires r'.types == r.types[p := r.types[p] + {t}] && r'.subs == r.subs
    ensures InOrder(list + OfType(r.subs, t), r', p)
  {
    forall x: Sub ensures Like(list + OfType(r.subs, t), x) == Wanted(r', p, x) {
      assert Like(list, x) == Wanted(r, p, x);
      NewTypeAt(r.subs, t, list, x);
    }
  }

  lemma {:induction false} NewTypeAt(subs: seq<Sub>, t: string, list: seq<Sub>, x: Sub)
    ensures x.eventType != t ==> Like(list + OfType(subs, t), x) == Like(list, x)
    ensures x.eventType == t && Like(list, x) == [] ==> Like(list + OfType(subs, t), x) == Like(subs, x)
  {
    LikeConcat(list, OfType(subs, t), x);
    LikeOfType(subs, t, x);
    if x.eventType == t {
      assert [] + Like(subs, x) == Like(subs, x);
    } else {
      assert Like(list, x) + [] == Like(list, x);
    }
  }

  // Filters of consumers and event types that the list has nothing of can be added and taken back in order.
  lemma {:induction false} TakenBackInOrder(list: seq<Sub>, tried: seq<Sub>)
    requires forall x: Sub :: Like(list, x) == [] || Like(tried, x) == []
    ensures MeantEach(list + tried, tried)
    ensures forall x: Sub :: Like(RemoveEach(list + tried, tried), x) == Like(list, x)
  {
    forall x | x in tried ensures Like(list + tried, x) == Like(tried, x) {
      LikeHas(tried, x);
      assert Like(list, x) == [];
      LikeConcat(list, tried, x);
      assert [] + Like(tried, x) == Like(tried, x);
    }
    forall x: Sub ensures Like(RemoveEach(list + tried, tried), x) == Like(list, x) {
      RemoveInOrder(list + tried, tried, x);
      LikeConcat(list, tried, x);
    }
    var any := Sub(0, "", 0);
    RemoveInOrder(list + tried, tried, any);
  }

  // Removing in order everything the list has of some consumers and event types.
  lemma {:induction false} RemovedInOrder(list: seq<Sub>, gone: seq<Sub>)
    requires forall x: Sub :: Like(gone, x) == [] || Like(gone, x) == Like(list, x)
    ensures MeantEach(list, gone)
    ensures forall x: Sub :: Like(RemoveEach(list, gone), x) == if Like(gone, x) == [] then Like(list, x) else []
  {
    forall x | x in gone ensures Like(list, x) == Like(gone, x) {
      LikeHas(gone, x);
    }
    RemoveInOrder(list, gone, Sub(0, "", 0));
    forall x: Sub ensures Like(RemoveEach(list, gone), x) == if Like(gone, x) == [] then Like(list, x) else [] {
      RemoveInOrder(list, gone, x);
    }
  }

  lemma {:induction false} RemovedTypeInOrder(r: Router, t: string, list: seq<Sub>, p: nat)
    requires InOrder(list, r, p) && p in r.types && t in r.types[p]
    ensures var gone := OfType(r.subs, t);
      && MeantEach(list, gone)
      && InOrder(RemoveEach(list, gone), r.(types := r.types[p := r.types[p] - {t}]), p)
  {
    var r' := r.(types := r.types[p := r.types[p] - {t}]);
    var gone := OfType(r.subs, t);
    forall x: Sub ensures Like(gone, x) == if x.eventType == t then Like(list, x) else [] {
      assert Like(list, x) == Wanted(r, p, x);
      LikeOfType(r.subs, t, x);
    }
    RemovedInOrder(list, gone);
    forall x: Sub ensures Like(RemoveEach(list, gone), x) == Wanted(r', p, x) {
      assert Like(list, x) == Wanted(r, p, x);
    }
  }

  lemma {:induction false} RemoveTypeOrderly(r: Router, t: string, list: seq<Sub>, p: nat)
    requires Consistent(r) && InOrder(list, r, p) && p in r.types && t in r.types[p]
    ensures var op := RemoveProducerEvent(p, t);
      RemovesMeant(list, CallsOf(r, op), p) && InOrder(ListAfter(list, CallsOf(r, op), p), Step(r, op).router, p)
  {
    ForPType(p, t, r.subs, p);
    RemovesAre(list, PairsOfType(p, t, r.subs), p);
    RemovedTypeInOrder(r, t, list, p);
    var after := RemoveEach(list, OfType(r.subs, t));
    SameTables(after, r.(types := r.types[p := r.types[p] - {t}]), Step(r, RemoveProducerEvent(p, t)).router, p);
  }

  // Being in order depends on the tables only.
  lemma {:induction false} SameTables(list: seq<Sub>, r: Router, r': Router, p: nat)
    requires InOrder(list, r, p) && r.types == r'.types && r.subs == r'.subs && r.nextProducer == r'.nextProducer
    ensures InOrder(list, r', p)
  {
    if p in r.types {
      forall x: Sub ensures Like(list, x) == Wanted(r', p, x) {
        assert Like(list, x) == Wanted(r, p, x);
      }
    }
  }

  lemma {:induction false} UnregisterConsumerOrderly(r: Router, c: nat, list: seq<Sub>, p: nat)
    requires Consistent(r) && InOrder(list, r, p) && p in r.types && c in r.consumers
    ensures var op := UnregisterConsumer(c);
      RemovesMeant(list, CallsOf(r, op), p) && InOrder(ListAfter(list, CallsOf(r, op), p), Step(r, op).router, p)
  {
    ForPConsumer(r.producers, r.types, r.subs, c, p);
    RemovesAre(list, PairsOfConsumer(r.producers, r.types, r.subs, c), p);
    ConsumerGone(r, c, list, p);
  }

  lemma {:induction false} ConsumerGone(r: Router, c: nat, list: seq<Sub>, p: nat)
    requires InOrder(list, r, p) && p in r.types && c in r.consumers
    ensures var gone := OfConsumer(r.subs, c, r.types[p]);
      MeantEach(list, gone) && InOrder(RemoveEach(list, gone), Step(r, UnregisterConsumer(c)).router, p)
  {
    var r' := Step(r, UnregisterConsumer(c)).router;
    var gone := OfConsumer(r.subs, c, r.types[p]);
    forall x: Sub ensures Like(gone, x) == if x.consumer == c then Like(list, x) else [] {
      assert Like(list, x) == Wanted(r, p, x);
      LikeOfConsumer(r.subs, c, r.types[p], x);
    }
    RemovedInOrder(list, gone);
    forall x: Sub ensures Like(RemoveEach(list, gone), x) == Wanted(r', p, x) {
      assert Like(list, x) == Wanted(r, p, x);
      LikeWithoutConsumer(r.subs, c, x);
    }
  }

  // ------------------------------------------------------------------ steps that do not concern p

  lemma {:induction false} OfferToOthers(list: seq<Sub>, pairs: seq<Pair>, answers: Answers, p: nat)
    requires ForP(pairs, p) == []
    ensures ListAfter(list, Offer(pairs, answers), p) == list && RemovesMeant(list, Offer(pairs, answers), p)
  {
    var n := Accepted(pairs, answers);
    OfferIs(list, pairs, answers, p);
    assert pairs == pairs[..n] + pairs[n..];
    ForPConcat(pairs[..n], pairs[n..], p);
    assert list + [] == list;
  }

  lemma {:induction false} RemoveFromOthers(list: seq<Sub>, pairs: seq<Pair>, p: nat)
    requires ForP(pairs, p) == []
    ensures ListAfter(list, Removes(pairs), p) == list && RemovesMeant(list, Removes(pairs), p)
  {
    RemovesAre(list, pairs, p);
  }

  // No call of the step is about p.
  lemma {:induction false} CallsToOthers(r: Router, op: Op, list: seq<Sub>, p: nat)
    requires Consistent(r)
    requires p !in r.types || ((op.AddProducerEvent? || op.RemoveProducerEvent?) && op.producer != p)
    ensures ListAfter(list, CallsOf(r, op), p) == list && RemovesMeant(list, CallsOf(r, op), p)
  {
    match op {
      case UnregisterConsumer(c) =>
        ForPConsumer(r.producers, r.types, r.subs, c, p);
        RemoveFromOthers(list, PairsOfConsumer(r.producers, r.types, r.subs, c), p);
      case AddSubscription(s, answers) =>
        ForPSub(r.producers, r.types, s, p);
        OfferToOthers(list, PairsOfSub(r.producers, r.types, s), answers, p);
      case RemoveSubscription(s) =>
        ForPSub(r.producers, r.types, s, p);
        RemoveFromOthers(list, PairsOfSub(r.producers, r.types, s), p);
      case AddProducerEvent(q, t, answers) =>
        ForPType(q, t, r.subs, p);
        if q != p {
          OfferToOthers(list, PairsOfType(q, t, r.subs), answers, p);
        }
      case RemoveProducerEvent(q, t) =>
        ForPType(q, t, r.subs, p);
        if q != p {
          RemoveFromOthers(list, PairsOfType(q, t, r.subs), p);
        }
      case _ =>
    }
  }

  lemma {:induction false} UnregisteredStep(r: Router, op: Op, list: seq<Sub>, p: nat)
    requires Consistent(r) && InOrder(list, r, p) && p !in r.types
    ensures RemovesMeant(list, CallsOf(r, op), p) && OrderlyStep(r, op, p)
    ensures InOrder(ListAfter(list, CallsOf(r, op), p), Step(r, op).router, p)
  {
    CallsToOthers(r, op, list, p);
    if op.AddSubscription? {
      var pairs := PairsOfSub(r.producers, r.types, op.sub);
      var n := Accepted(pairs, op.answers);
      PairsOfSubAre(r.producers, r.types, op.sub);
      assert forall x :: x in pairs[..n] ==> x in pairs;
    }
  }

  lemma {:induction false} OtherProducerStep(r: Router, op: Op, list: seq<Sub>, p: nat)
    requires Consistent(r) && InOrder(list, r, p) && p in r.types
    requires (op.AddProducerEvent? || op.RemoveProducerEvent?) && op.producer != p
    ensures RemovesMeant(list, CallsOf(r, op), p)
    ensures InOrder(ListAfter(list, CallsOf(r, op), p), Step(r, op).router, p)
  {
    CallsToOthers(r, op, list, p);
    var r' := Step(r, op).router;
    forall x: Sub ensures Like(list, x) == Wanted(r', p, x) {
      assert Like(list, x) == Wanted(r, p, x);
    }
  }

  // Registering parties and moving notifications calls no filter and changes no subscription.
  lemma {:induction false} SilentStep(r: Router, op: Op, list: seq<Sub>, p: nat)
    requires Consistent(r) && InOrder(list, r, p) && p in r.types
    requires op.RegisterConsumer? || op.RegisterProducer? || op.UnregisterProducer?
             || op.Notify? || op.Deliver? || op.Return?
    ensures RemovesMeant(list, CallsOf(r, op), p)
    ensures InOrder(ListAfter(list, CallsOf(r, op), p), Step(r, op).router, p)
  {
    var r' := Step(r, op).router;
    var calls := CallsOf(r, op);
    assert calls != [] ==> calls[1..] == [];
    assert ListAfter(list, calls, p) == list;
    if p in r'.types {
      forall x: Sub ensures Like(list, x) == Wanted(r', p, x) {
        assert Like(list, x) == Wanted(r, p, x);
      }
    }
  }

  // Every step: its removals erase the filters they mean if and only if it is orderly, and then the list stays in
  // order.
  lemma {:induction false} StepOrderly(r: Router, op: Op, list: seq<Sub>, p: nat)
    requires Consistent(r) && InOrder(list, r, p)
    ensures RemovesMeant(list, CallsOf(r, op), p) <==> OrderlyStep(r, op, p)
    ensures OrderlyStep(r, op, p) ==> InOrder(ListAfter(list, CallsOf(r, op), p), Step(r, op).router, p)
  {
    if p !in r.types {
      UnregisteredStep(r, op, list, p);
    } else {
      match op {
        case UnregisterConsumer(c) =>
          if c in r.consumers {
            UnregisterConsumerOrderly(r, c, list, p);
          }
        case AddSubscription(s, answers) =>
          if s.consumer in r.consumers && s !in r.subs {
            AddSubscriptionOrderly(r, s, answers, list, p);
          }
        case RemoveSubscription(s) =>
          if s.consumer in r.consumers && s in r.subs {
            RemoveSubscriptionOrderly(r, s, list, p);
          }
        case AddProducerEvent(q, t, answers) =>
          if q != p {
            OtherProducerStep(r, op, list, p);
          } else if t !in r.types[p] {
            AddTypeOrderly(r, t, answers, list, p);
          }
        case RemoveProducerEvent(q, t) =>
          if q != p {
            OtherProducerStep(r, op, list, p);
          } else if t in r.types[p] {
            RemoveTypeOrderly(r, t, list, p);
          }
        case _ => SilentStep(r, op, list, p);
      }
    }
  }

  // ------------------------------------------------------------------ every run

  ghost predicate OrderlyRun(r: Router, ops: seq<Op>, p: nat)
    decreases |ops|
  {
    ops == [] || (OrderlyStep(r, ops[0], p) && OrderlyRun(Step(r, ops[0]).router, ops[1..], p))
  }

  // All calls of a run.
  function CallsOfRun(r: Router, ops: seq<Op>): seq<Call>
    decreases |ops|
  {
    if ops == [] then [] else CallsOf(r, ops[0]) + CallsOfRun(Step(r, ops[0]).router, ops[1..])
  }

  lemma {:induction false} RunAppends(r: Router, ops: seq<Op>)
    ensures Run(r, ops).calls == r.calls + CallsOfRun(r, ops)
    decreases |ops|
  {
    if ops != [] {
      StepAppends(r, ops[0]);
      RunAppends(Step(r, ops[0]).router, ops[1..]);
      ConcatAssoc(r.calls, CallsOf(r, ops[0]), CallsOfRun(Step(r, ops[0]).router, ops[1..]));
    }
  }

  lemma {:induction false} RunOrderly(r: Router, ops: seq<Op>, list: seq<Sub>, p: nat)
    requires Consistent(r) && InOrder(list, r, p)
    ensures RemovesMeant(list, CallsOfRun(r, ops), p) <==> OrderlyRun(r, ops, p)
    ensures OrderlyRun(r, ops, p) ==> InOrder(ListAfter(list, CallsOfRun(r, ops), p), Run(r, ops), p)
    decreases |ops|
  {
    if ops != [] {
      var calls, rest := CallsOf(r, ops[0]), CallsOfRun(Step(r, ops[0]).router, ops[1..]);
      StepOrderly(r, ops[0], list, p);
      StepKeeps(r, ops[0]);
      CallsConcat(list, calls, rest, p);
      if OrderlyStep(r, ops[0], p) {
        RunOrderly(Step(r, ops[0]).router, ops[1..], ListAfter(list, calls, p), p);
      }
    }
  }

  // In every run of the router: a producer's own list agrees, before and after every call it receives, with the filters
  // the router means it to hold, if and only if every step of the run is orderly for that producer.
  lemma {:induction false} ProducerListsAgree(ops: seq<Op>, p: nat)
    ensures AgreeThroughout([], {}, Run(Init(), ops).calls, p) <==> OrderlyRun(Init(), ops, p)
  {
    RunKeeps(Init(), ops);
    RunAppends(Init(), ops);
    assert [] + CallsOfRun(Init(), ops) == CallsOfRun(Init(), ops);
    AgreeThroughoutIff([], {}, Run(Init(), ops).calls, p);
    RunOrderly(Init(), ops, [], p);
  }

  // And then the list of a registered producer is the live subscriptions to the types it produces, those of one
  // consumer and event type in the order they were made.
  lemma {:induction false} OrderlyListIsSubscriptions(ops: seq<Op>, p: nat, s: Sub)
    requires OrderlyRun(Init(), ops, p) && p in Run(Init(), ops).types
    ensures var r := Run(Init(), ops); var list := ListAfter([], r.calls, p);
      && (s in list <==> s in r.subs && s.eventType in r.types[p])
      && Like(list, s) == Wanted(r, p, s)
  {
    RunAppends(Init(), ops);
    assert [] + CallsOfRun(Init(), ops) == CallsOfRun(Init(), ops);
    RunOrderly(Init(), ops, [], p);
    var r := Run(Init(), ops);
    LikeHas(ListAfter([], r.calls, p), s);
    LikeHas(r.subs, s);
  }

  // ------------------------------------------------------------------ what callers do

  // Every subscription removed is the oldest live one of its consumer and event type, and no subscription is refused
  // while an older one of its consumer and event type is live.
  ghost predicate OldestFirst(r: Router, ops: seq<Op>)
    decreases |ops|
  {
    ops == [] ||
    (&& (ops[0].RemoveSubscription? && Step(r, ops[0]).code == Ok ==>
           FirstLike(r.subs, ops[0].sub) == Some(ops[0].sub))
     && (ops[0].AddSubscription? && Step(r, ops[0]).code == Failure && ops[0].sub !in r.subs ==>
           FirstLike(r.subs, ops[0].sub).None?)
     && OldestFirst(Step(r, ops[0]).router, ops[1..]))
  }

  // Clients that keep to that, with as many filters per event type as they like, keep every producer's list right.
  lemma {:induction false} OldestFirstIsOrderly(r: Router, ops: seq<Op>, p: nat)
    requires OldestFirst(r, ops)
    ensures OrderlyRun(r, ops, p)
    decreases |ops|
  {
    if ops != [] {
      OldestFirstIsOrderly(Step(r, ops[0]).router, ops[1..], p);
    }
  }

  // ------------------------------------------------------------------ runs that go wrong

  lemma {:induction false} RunCons(r: Router, op: Op, ops: seq<Op>)
    ensures Run(r, [op] + ops) == Run(Step(r, op).router, ops)
  {
    assert ([op] + ops)[1..] == ops;
  }

  lemma {:induction false} ListCons(list: seq<Sub>, c: Call, calls: seq<Call>, p: nat)
    ensures ListAfter(list, [c] + calls, p) == ListAfter(ListStep(list, c, p), calls, p)
  {
    assert ([c] + calls)[1..] == calls;
  }

  // Announcing a type nobody subscribes to calls nothing.
  lemma {:induction false} AnnounceUnwanted(r: Router, p: nat, t: string, answers: Answers)
    requires r.subs == [] && p in r.types && t !in r.types[p]
    ensures Step(r, AddProducerEvent(p, t, answers)).router == r.(types := r.types[p := r.types[p] + {t}])
  {
    assert PairsOfType(p, t, []) == [] && Adds([]) == [] && r.calls + [] == r.calls;
  }

  lemma {:induction false} OneType(t: string)
    ensures var none: set<string> := {}; none + {t} == {t}
  {
  }

  // One consumer and one producer of t, with these subscriptions and these calls made.
  function OneProducer(t: string, subs: seq<Sub>, calls: seq<Call>): Router {
    Router({0}, [0], map[0 := {t}], subs, [], 1, 1, calls)
  }

  lemma {:induction false} PairsAtOne(t: string, s: Sub)
    requires s.eventType == t
    ensures PairsOfSub([0], map[0 := {t}], s) == [Pair(0, s)]
    ensures Offer([Pair(0, s)], _ => true) == [AddFilter(Pair(0, s), true)]
    ensures Accepted([Pair(0, s)], _ => true) == 1
    ensures Removes([Pair(0, s)]) == [RemoveFilter(Pair(0, s))]
  {
    assert [0][1..] == [] && [Pair(0, s)][1..] == [];
    assert PairsOfSub([], map[0 := {t}], s) == [];
    var yes: Answers := (_ => true);
    assert Accepted([Pair(0, s)], yes) == 1;
  }

  lemma {:induction false} SubscribeOne(t: string, subs: seq<Sub>, calls: seq<Call>, s: Sub)
    requires s.consumer == 0 && s.eventType == t && s !in subs
    ensures Step(OneProducer(t, subs, calls), AddSubscription(s, _ => true)).router
         == OneProducer(t, subs + [s], calls + [AddFilter(Pair(0, s), true)])
  {
    PairsAtOne(t, s);
  }

  lemma {:induction false} UnsubscribeOne(t: string, subs: seq<Sub>, calls: seq<Call>, s: Sub)
    requires s.consumer == 0 && s.eventType == t && s in subs
    ensures Step(OneProducer(t, subs, calls), RemoveSubscription(s)).router
         == OneProducer(t, Without(subs, s), calls + [RemoveFilter(Pair(0, s))])
  {
    PairsAtOne(t, s);
  }

  lemma {:induction false} SecondRemoved(t: string, f: nat, g: nat)
    requires f != g
    ensures var yes: Answers := (_ => true); var s, u := Sub(0, t, f), Sub(0, t, g);
      Run(OneProducer(t, [], []),
          [AddSubscription(s, yes)] + ([AddSubscription(u, yes)] + ([RemoveSubscription(u)] + [])))
        == OneProducer(t, [s], [AddFilter(Pair(0, s), true), AddFilter(Pair(0, u), true), RemoveFilter(Pair(0, u))])
  {
    var yes: Answers := (_ => true);
    var s, u := Sub(0, t, f), Sub(0, t, g);
    var a, b, c := AddFilter(Pair(0, s), true), AddFilter(Pair(0, u), true), RemoveFilter(Pair(0, u));
    SubscribeOne(t, [], [], s);
    SubscribeOne(t, [s], [a], u);
    UnsubscribeOne(t, [s, u], [a, b], u);
    assert [s, u][1..] == [u] && [u][1..] == [];
    assert Without([u], u) == [] && Without([s, u], u) == [s] + Without([u], u) == [s];
    assert [] + [s] == [s] && [s] + [u] == [s, u];
    assert [] + [a] == [a] && [a] + [b] == [a, b] && [a, b] + [c] == [a, b, c];
    RunCons(OneProducer(t, [], []), AddSubscription(s, yes),
            [AddSubscription(u, yes)] + ([RemoveSubscription(u)] + []));
    RunCons(OneProducer(t, [s], [a]), AddSubscription(u, yes), [RemoveSubscription(u)] + []);
    RunCons(OneProducer(t, [s, u], [a, b]), RemoveSubscription(u), []);
  }

  // Subscribe with f, subscribe with g, remove g: the subscription that is left is f, the producer is left with g.
  lemma {:induction false} SecondFilterOutlivesFirst(t: string, f: nat, g: nat)
    requires f != g
    ensures var yes: Answers := (_ => true);
      var ops := [RegisterConsumer] + ([RegisterProducer] + ([AddProducerEvent(0, t, yes)]
                 + ([AddSubscription(Sub(0, t, f), yes)] + ([AddSubscription(Sub(0, t, g), yes)]
                 + ([RemoveSubscription(Sub(0, t, g))] + [])))));
      var r := Run(Init(), ops);
      && r.subs == [Sub(0, t, f)] && r.types == map[0 := {t}]
      && ListAfter([], r.calls, 0) == [Sub(0, t, g)]
  {
    var yes: Answers := (_ => true);
    var s, u := Sub(0, t, f), Sub(0, t, g);
    var rest := [AddSubscription(s, yes)] + ([AddSubscription(u, yes)] + ([RemoveSubscription(u)] + []));
    var one := Router({0}, [], map[], [], [], 1, 0, []);
    var two := Router({0}, [0], map[0 := {}], [], [], 1, 1, []);
    var three := OneProducer(t, [], []);
    assert Step(Init(), RegisterConsumer).router == one;
    assert Step(one, RegisterProducer).router == two;
    AnnounceUnwanted(two, 0, t, yes);
    OneType(t);
    assert two.types[0 := two.types[0] + {t}] == three.types;
    RunCons(Init(), RegisterConsumer, [RegisterProducer] + ([AddProducerEvent(0, t, yes)] + rest));
    RunCons(one, RegisterProducer, [AddProducerEvent(0, t, yes)] + rest);
    RunCons(two, AddProducerEvent(0, t, yes), rest);
    SecondRemoved(t, f, g);
    var a, b, c := AddFilter(Pair(0, s), true), AddFilter(Pair(0, u), true), RemoveFilter(Pair(0, u));
    ListCons([], a, [b, c], 0);
    ListCons([s], b, [c], 0);
    ListCons([s, u], c, [], 0);
    assert [a] + [b, c] == [a, b, c] && [b] + [c] == [b, c] && [c] + [] == [c];
    assert [] + [s] == [s] && [s] + [u] == [s, u] && [s, u][1..] == [u];
  }

  lemma {:induction false} PairsAtTwo(t: string, s: Sub)
    requires s.eventType == t
    ensures PairsOfSub([0, 1], map[0 := {t}, 1 := {t}], s) == [Pair(0, s), Pair(1, s)]
  {
    var types := map[0 := {t}, 1 := {t}];
    assert [0, 1][1..] == [1] && [1][1..] == [];
    assert PairsOfSub([], types, s) == [];
    assert PairsOfSub([1], types, s) == [Pair(1, s)];
  }

  // Two producers of t and a subscription with f, live at both.
  function TwoHold(t: string, f: nat): Router {
    var s := Sub(0, t, f);
    Router({0}, [0, 1], map[0 := {t}, 1 := {t}], [s], [], 1, 2,
           [AddFilter(Pair(0, s), true), AddFilter(Pair(1, s), true)])
  }

  lemma {:induction false} TwoHoldIsReached(t: string, f: nat)
    ensures var yes: Answers := (_ => true);
      Run(Init(), [RegisterConsumer] + ([RegisterProducer] + ([RegisterProducer] + ([AddProducerEvent(0, t, yes)]
                  + ([AddProducerEvent(1, t, yes)] + ([AddSubscription(Sub(0, t, f), yes)] + []))))))
        == TwoHold(t, f)
  {
    var yes: Answers := (_ => true);
    var s := Sub(0, t, f);
    var one := Router({0}, [], map[], [], [], 1, 0, []);
    var two := one.(producers := [0], types := map[0 := {}], nextProducer := 1);
    var three := one.(producers := [0, 1], types := map[0 := {}, 1 := {}], nextProducer := 2);
    var four := three.(types := map[0 := {t}, 1 := {}]);
    var five := three.(types := map[0 := {t}, 1 := {t}]);
    var last := [AddSubscription(s, yes)] + [];
    assert Step(Init(), RegisterConsumer).router == one;
    assert Step(one, RegisterProducer).router == two;
    assert Step(two, RegisterProducer).router == three;
    AnnounceUnwanted(three, 0, t, yes);
    OneType(t);
    assert three.types[0 := three.types[0] + {t}] == four.types;
    AnnounceUnwanted(four, 1, t, yes);
    assert four.types[1 := four.types[1] + {t}] == five.types;
    var pairs := [Pair(0, s), Pair(1, s)];
    PairsAtTwo(t, s);
    assert pairs[1..] == [Pair(1, s)] && pairs[1..][1..] == [];
    assert Accepted(pairs, yes) == 2;
    assert Offer(pairs, yes) == [AddFilter(Pair(0, s), true), AddFilter(Pair(1, s), true)];
    RunCons(Init(), RegisterConsumer, [RegisterProducer] + ([RegisterProducer] + ([AddProducerEvent(0, t, yes)]
                                      + ([AddProducerEvent(1, t, yes)] + last))));
    RunCons(one, RegisterProducer, [RegisterProducer] + ([AddProducerEvent(0, t, yes)]
                                   + ([AddProducerEvent(1, t, yes)] + last)));
    RunCons(two, RegisterProducer, [AddProducerEvent(0, t, yes)] + ([AddProducerEvent(1, t, yes)] + last));
    RunCons(three, AddProducerEvent(0, t, yes), [AddProducerEvent(1, t, yes)] + last);
    RunCons(four, AddProducerEvent(1, t, yes), last);
    RunCons(five, AddSubscription(s, yes), []);
  }

  // The same after a refusal: with f live at producers 0 and 1, subscribing with g is accepted by 0 and refused by 1;
  // taking g back from 0 erases f there.
  lemma {:induction false} RefusedSecondFilterErasesFirst(t: string, f: nat, g: nat)
    requires f != g
    ensures var s, u := Sub(0, t, f), Sub(0, t, g);
      var onlyFirst: Answers := ((x: Pair) => x.producer == 0);
      var r := TwoHold(t, f);
      var after := Step(r, AddSubscription(u, onlyFirst));
      && ListAfter([], r.calls, 0) == [s]
      && after.code == Failure && after.router.subs == [s] && ListAfter([], after.router.calls, 0) == [u]
  {
    var s, u := Sub(0, t, f), Sub(0, t, g);
    var onlyFirst: Answers := ((x: Pair) => x.producer == 0);
    var pairs := [Pair(0, u), Pair(1, u)];
    PairsAtTwo(t, u);
    assert pairs[1..] == [Pair(1, u)] && pairs[..1] == [Pair(0, u)];
    assert Accepted(pairs, onlyFirst) == 1;
    assert Adds([Pair(0, u)]) == [AddFilter(Pair(0, u), true)] && Removes([Pair(0, u)]) == [RemoveFilter(Pair(0, u))];
    assert Offer(pairs, onlyFirst)
        == [AddFilter(Pair(0, u), true), AddFilter(Pair(1, u), false), RemoveFilter(Pair(0, u))];
    ErasedAfterRefusal(s, u);
  }

  // The producer's list through those calls.
  lemma {:induction false} ErasedAfterRefusal(s: Sub, u: Sub)
    requires SameKey(s, u) && s != u
    ensures var before := [AddFilter(Pair(0, s), true), AddFilter(Pair(1, s), true)];
      && ListAfter([], before, 0) == [s]
      && ListAfter([],
                   before + [AddFilter(Pair(0, u), true), AddFilter(Pair(1, u), false), RemoveFilter(Pair(0, u))],
                   0) == [u]
  {
    var a, b := AddFilter(Pair(0, s), true), AddFilter(Pair(1, s), true);
    var c, d, e := AddFilter(Pair(0, u), true), AddFilter(Pair(1, u), false), RemoveFilter(Pair(0, u));
    ListCons([], a, [b], 0);
    ListCons([s], b, [], 0);
    assert [a] + [b] == [a, b] && [b] + [] == [b] && [] + [s] == [s];
    CallsConcat([], [a, b], [c, d, e], 0);
    ListCons([s], c, [d, e], 0);
    ListCons([s, u], d, [e], 0);
    ListCons([s, u], e, [], 0);
    assert [c] + [d, e] == [c, d, e] && [d] + [e] == [d, e] && [e] + [] == [e] && [s] + [u] == [s, u];
    assert [s, u][1..] == [u];
  }
}
