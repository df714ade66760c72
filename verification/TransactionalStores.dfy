/**
 Managed-object stores as participants of the two-phase commit.

 Each participant is a store of Serializability serving any clients.  One of its open transactions belongs to
 the coordinator's transaction: only the coordinator ends it.  Told to commit, the participant commits it in the
 store if it answers Ok; told to abort, it aborts it there; told to finish, it drops it if it is still open.
 The results say what the coordinator's decision does to the committed trees, with every store busy with other
 transactions before, during and after.
*/
module TransactionalStores {
  import opened Common
  import opened TransactionService
  import opened TransactionProofs
  import MO = ManagedObjects
  import S = Serializability

  // What happens at one store: a request of a client, or a call of the coordinator about its transaction.
  datatype Event = Client(request: S.Request) | Told(call: Call)

  function AsRequests(k: nat, c: Call): seq<S.Request> {
    if c.kind == Commit && c.answer == Ok then [S.Commit(k)]
    else if c.kind == Abort || c.kind == Finish then [S.Abort(k)]
    else []
  }

  // Everything the store is asked, in order.
  function Requests(k: nat, events: seq<Event>): seq<S.Request> {
    if events == [] then []
    else
      (match events[0]
       case Client(q) => [q]
       case Told(c) => AsRequests(k, c)) + Requests(k, events[1..])
  }

  function CallsIn(events: seq<Event>): seq<Call> {
    if events == [] then []
    else (if events[0].Told? then [events[0].call] else []) + CallsIn(events[1..])
  }

  // Clients may work in the transaction but only the coordinator ends it.
  predicate EndedByCalls(k: nat, events: seq<Event>) {
    forall e <- events :: e.Client? ==> e.request != S.Commit(k) && e.request != S.Abort(k)
  }

  // ------------------------------------------------------------------ what a run installs

  function InstalledNow(s: S.Store, q: S.Request): seq<(nat, S.Tx)> {
    if q.Commit? && q.tx in s.live then [(q.tx, s.live[q.tx])] else []
  }

  // The transactions committed in a run of requests, with their handles, in order.
  function Installed(s: S.Store, qs: seq<S.Request>): seq<(nat, S.Tx)>
    decreases |qs|
  {
    if qs == [] then [] else InstalledNow(s, qs[0]) + Installed(S.Step(s, qs[0]).store, qs[1..])
  }

  function Txs(installed: seq<(nat, S.Tx)>): seq<S.Tx> {
    seq(|installed|, i requires 0 <= i < |installed| => installed[i].1)
  }

  lemma {:induction false} TxsConcat(a: seq<(nat, S.Tx)>, b: seq<(nat, S.Tx)>)
    ensures Txs(a + b) == Txs(a) + Txs(b)
  {
  }

  // The logs installed under the handle k.
  function LogsUnder(installed: seq<(nat, S.Tx)>, k: nat): seq<seq<S.Entry>> {
    if installed == [] then []
    else (if installed[0].0 == k then [installed[0].1.log] else []) + LogsUnder(installed[1..], k)
  }

  lemma {:induction false} LogsUnderNow(s: S.Store, q: S.Request, rest: seq<(nat, S.Tx)>, k: nat)
    ensures LogsUnder(InstalledNow(s, q) + rest, k) ==
      (if q == S.Commit(k) && k in s.live then [s.live[k].log] else []) + LogsUnder(rest, k)
  {
    var now := InstalledNow(s, q);
    if now != [] {
      assert (now + rest)[1..] == rest;
      assert (now + rest)[0] == (q.tx, s.live[q.tx]);
    } else {
      assert now + rest == rest;
    }
  }

  lemma {:induction false} HistoryNow(s: S.Store, q: S.Request)
    ensures S.Step(s, q).store.history == s.history + Txs(InstalledNow(s, q))
  {
  }

  lemma {:induction false} HistoryIsWhatWasInstalled(s: S.Store, qs: seq<S.Request>)
    ensures S.Run(s, qs).history == s.history + Txs(Installed(s, qs))
    decreases |qs|
  {
    if qs != [] {
      var t := S.Step(s, qs[0]).store;
      HistoryIsWhatWasInstalled(t, qs[1..]);
      var now := InstalledNow(s, qs[0]);
      HistoryNow(s, qs[0]);
      TxsConcat(now, Installed(t, qs[1..]));
      ConcatAssoc(s.history, Txs(now), Txs(Installed(t, qs[1..])));
    }
  }

  // After a transaction has ended nothing more is installed under its handle.
  lemma {:induction false} EndedInstallsNothing(s: S.Store, qs: seq<S.Request>, k: nat)
    requires S.HandlesBelow(s) && k < s.next && k !in s.live
    ensures LogsUnder(Installed(s, qs), k) == [] && S.Given(s, qs, k) == [] && k !in S.Run(s, qs).live
    decreases |qs|
  {
    if qs != [] {
      S.GoneStepsOn(s, qs[0], k);
      var t := S.Step(s, qs[0]).store;
      EndedInstallsNothing(t, qs[1..], k);
      LogsUnderNow(s, qs[0], Installed(t, qs[1..]), k);
    }
  }

  lemma {:induction false} ConsRun(s: S.Store, q: S.Request, qs: seq<S.Request>, k: nat)
    ensures var t := S.Step(s, q).store;
      && S.Run(s, [q] + qs) == S.Run(t, qs)
      && Installed(s, [q] + qs) == InstalledNow(s, q) + Installed(t, qs)
      && S.Given(s, [q] + qs, k) == S.GivenNow(s, q, k) + S.Given(t, qs, k)
  {
    assert ([q] + qs)[1..] == qs && ([q] + qs)[0] == q;
  }

  // One request of a client while the transaction is open: it stays open, and its log grows by what it was given.
  lemma {:induction false} ClientKeepsOpen(s: S.Store, q: S.Request, qs: seq<S.Request>, k: nat)
    requires S.HandlesBelow(s) && k in s.live && q != S.Commit(k) && q != S.Abort(k)
    ensures var t := S.Step(s, q).store;
      && S.HandlesBelow(t) && k in t.live
      && LogsUnder(Installed(s, [q] + qs), k) == LogsUnder(Installed(t, qs), k)
      && s.live[k].log + S.Given(s, [q] + qs, k) == t.live[k].log + S.Given(t, qs, k)
  {
    var t := S.Step(s, q).store;
    ConsRun(s, q, qs, k);
    LogsUnderNow(s, q, Installed(t, qs), k);
    S.StepGives(s, q, k);
    ConcatAssoc(s.live[k].log, S.GivenNow(s, q, k), S.Given(t, qs, k));
  }

  // The coordinator ends the transaction here, by commit or by abort.
  lemma {:induction false} EndingInstalls(s: S.Store, q: S.Request, qs: seq<S.Request>, k: nat)
    requires S.HandlesBelow(s) && k in s.live && (q == S.Commit(k) || q == S.Abort(k))
    ensures k !in S.Run(s, [q] + qs).live && S.Given(s, [q] + qs, k) == []
    ensures LogsUnder(Installed(s, [q] + qs), k) == if q == S.Commit(k) then [s.live[k].log] else []
  {
    var t := S.Step(s, q).store;
    ConsRun(s, q, qs, k);
    LogsUnderNow(s, q, Installed(t, qs), k);
    EndedInstallsNothing(t, qs, k);
  }

  // ------------------------------------------------------------------ one participant

  // The first call that ends a transaction, if any.
  function EndingOf(calls: seq<Call>): seq<Call> {
    if calls == [] then []
    else if AsRequests(0, calls[0]) != [] then [calls[0]]
    else EndingOf(calls[1..])
  }

  lemma {:induction false} EndingCallEnds(s: S.Store, k: nat, c: Call, rest: seq<S.Request>, calls: seq<Call>)
    requires S.HandlesBelow(s) && k in s.live && AsRequests(k, c) != []
    ensures FollowsCalls(s, k, AsRequests(k, c) + rest, EndingOf([c] + calls))
  {
    EndingInstalls(s, AsRequests(k, c)[0], rest, k);
    assert s.live[k].log + [] == s.live[k].log;
    assert ([c] + calls)[0] == c;
  }

  // Whatever else its clients do, the store ends the transaction at the first call that ends it; it installs the
  // transaction's log, once, if that call was a commit answered Ok, and never otherwise.
  lemma {:induction false} StoreFollowsCalls(s: S.Store, k: nat, events: seq<Event>)
    requires S.HandlesBelow(s) && k in s.live && EndedByCalls(k, events)
    ensures FollowsCalls(s, k, Requests(k, events), EndingOf(CallsIn(events)))
    decreases |events|
  {
    if events != [] {
      var rest := Requests(k, events[1..]);
      var calls := CallsIn(events[1..]);
      assert events[0] in events;
      match events[0] {
        case Client(q) =>
          ClientKeepsOpen(s, q, rest, k);
          ConsRun(s, q, rest, k);
          StoreFollowsCalls(S.Step(s, q).store, k, events[1..]);
          assert Requests(k, events) == [q] + rest && CallsIn(events) == [] + calls == calls;
        case Told(c) =>
          assert CallsIn(events) == [c] + calls && ([c] + calls)[1..] == calls;
          assert Requests(k, events) == AsRequests(k, c) + rest;
          if AsRequests(k, c) == [] {
            assert [] + rest == rest;
            StoreFollowsCalls(s, k, events[1..]);
          } else {
            EndingCallEnds(s, k, c, rest, calls);
          }
      }
    }
  }

  ghost predicate FollowsCalls(s: S.Store, k: nat, qs: seq<S.Request>, ending: seq<Call>)
    requires k in s.live
  {
    && (k !in S.Run(s, qs).live <==> ending != [])
    && LogsUnder(Installed(s, qs), k) ==
         if ending != [] && ending[0].kind == Commit then [s.live[k].log + S.Given(s, qs, k)] else []
  }

  // A participant of the coordinator's transaction: its store's past, its transaction there, and what happens from
  // then on.
  datatype Site = Site(initial: MO.Tree, past: seq<S.Request>, tx: nat, events: seq<Event>)

  function StoreBefore(site: Site): S.Store {
    S.Run(S.Start(site.initial), site.past)
  }

  function StoreAfter(site: Site): S.Store {
    S.Run(StoreBefore(site), Requests(site.tx, site.events))
  }

  // The site has heard exactly these calls about its open transaction.
  predicate Hosts(site: Site, story: seq<Call>) {
    site.tx in StoreBefore(site).live && EndedByCalls(site.tx, site.events) && CallsIn(site.events) == story
  }

  // The operations of the site's transaction that were served, with their answers.
  function LogAt(site: Site): seq<S.Entry>
    requires site.tx in StoreBefore(site).live
  {
    StoreBefore(site).live[site.tx].log + S.Given(StoreBefore(site), Requests(site.tx, site.events), site.tx)
  }

  // The logs installed at the site under its transaction's handle.
  function LogsInstalled(site: Site): seq<seq<S.Entry>> {
    LogsUnder(Installed(StoreBefore(site), Requests(site.tx, site.events)), site.tx)
  }

  // The site's committed tree is that of its earlier history and of what was installed since, one after the other, and
  // its transaction's log is among the latter exactly as often as said.
  ghost predicate InstalledAt(site: Site, logs: seq<seq<S.Entry>>) {
    var before, after := StoreBefore(site), StoreAfter(site);
    var since := Installed(before, Requests(site.tx, site.events));
    && after.history == before.history + Txs(since)
    && S.SerialOk(site.initial, after.history) && S.SerialTree(site.initial, after.history) == after.committed
    && LogsUnder(since, site.tx) == logs && site.tx !in after.live
  }

  lemma {:induction false} RunKeepsHandles(s: S.Store, qs: seq<S.Request>)
    requires S.HandlesBelow(s)
    ensures S.HandlesBelow(S.Run(s, qs))
    decreases |qs|
  {
    if qs != [] {
      RunKeepsHandles(S.Step(s, qs[0]).store, qs[1..]);
    }
  }

  lemma {:induction false} RunConcat(s: S.Store, a: seq<S.Request>, b: seq<S.Request>)
    ensures S.Run(s, a + b) == S.Run(S.Run(s, a), b)
    decreases |a|
  {
    if a == [] {
      assert a + b == b;
    } else {
      assert (a + b)[1..] == a[1..] + b;
      RunConcat(S.Step(s, a[0]).store, a[1..], b);
    }
  }

  lemma {:induction false} SiteFollowsStory(site: Site, story: seq<Call>)
    requires Hosts(site, story) && EndingOf(story) != []
    ensures InstalledAt(site, if EndingOf(story)[0].kind == Commit then [LogAt(site)] else [])
  {
    var qs := Requests(site.tx, site.events);
    RunKeepsHandles(S.Start(site.initial), site.past);
    StoreFollowsCalls(StoreBefore(site), site.tx, site.events);
    HistoryIsWhatWasInstalled(StoreBefore(site), qs);
    RunConcat(S.Start(site.initial), site.past, qs);
    S.Serializable(site.initial, site.past + qs);
  }

  // ------------------------------------------------------------------ all participants

  // What one participant's story means for its store.
  lemma {:induction false} StoryEnds(story: seq<Call>, r: Resource)
    requires CommittedStory(story, r) || AbortedStory(story)
    ensures EndingOf(story) != []
    ensures EndingOf(story)[0].kind == Commit <==> CommittedStory(story, r) && story[1].answer == Ok
  {
    var a := story[1..];
    assert a[0] == story[1];
    assert EndingOf(story) == if AsRequests(0, story[0]) != [] then [story[0]] else EndingOf(a);
    if |story| == 3 {
      var b := a[1..];
      assert b[0] == story[2];
      assert EndingOf(a) == if AsRequests(0, a[0]) != [] then [a[0]] else EndingOf(b);
    }
  }

  // In every run of the coordinator, and whatever the clients of every store do: an ended transaction is installed at
  // no participant, or else every participant prepared Ok, was told to commit, and has exactly its log installed if it
  // answered Ok and nothing if it did not.
  lemma {:induction false} AllOrNothing(validators: seq<nat>, ops: seq<Op>, h: Handle, sites: map<Resource, Site>)
    requires var s := Run(Init(validators), ops);
      h < |s.log| && (h in s.txs ==> s.txs[h].phase.TimedOut?)
    requires var rec := Run(Init(validators), ops).log[h];
      forall r <- rec.parts :: r in sites && Hosts(sites[r], Heard(rec.calls, r))
    ensures var rec := Run(Init(validators), ops).log[h];
      || (forall r <- rec.parts :: AbortedStory(Heard(rec.calls, r)) && InstalledAt(sites[r], []))
      || (forall r <- rec.parts ::
            && CommittedStory(Heard(rec.calls, r), r)
            && InstalledAt(sites[r], if Heard(rec.calls, r)[1].answer == Ok then [LogAt(sites[r])] else []))
  {
    var rec := Run(Init(validators), ops).log[h];
    EndedEverywhere(validators, ops, h);
    forall r | r in rec.parts
      ensures var story := Heard(rec.calls, r);
        && EndingOf(story) != []
        && (EndingOf(story)[0].kind == Commit <==> CommittedStory(story, r) && story[1].answer == Ok)
        && InstalledAt(sites[r], if EndingOf(story)[0].kind == Commit then [LogAt(sites[r])] else [])
    {
      StoryEnds(Heard(rec.calls, r), r);
      SiteFollowsStory(sites[r], Heard(rec.calls, r));
    }
  }

  // The code of a commit decides the data of participant number i: Ok means installed; a failed validation or prepare
  // means not; a failed commit means installed exactly if the participant answered Ok.
  lemma {:induction false} CommitCodeTellsData(validators: seq<nat>, ops: seq<Op>, h: Handle, env: Environment, i: nat,
                                               site: Site)
    requires var s := Run(Init(validators), ops);
      && h in s.txs && !s.txs[h].phase.TimedOut? && i < |s.txs[h].parts|
      && h < |Step(s, CommitTx(h, env)).master.log|
      && Hosts(site, Heard(Step(s, CommitTx(h, env)).master.log[h].calls, s.txs[h].parts[i]))
    ensures var s := Run(Init(validators), ops);
      InstalledAt(site,
        match Step(s, CommitTx(h, env)).code
        case Ok => [LogAt(site)]
        case CommitFailed => if env(Commit, s.txs[h].parts[i]) == Ok then [LogAt(site)] else []
        case _ => [])
  {
    var s := Run(Init(validators), ops);
    var t := Step(s, CommitTx(h, env));
    var r := s.txs[h].parts[i];
    CommitCodeTellsStory(validators, ops, h, env, i);
    var story := Heard(t.master.log[h].calls, r);
    EveryRunConsistent(Init(validators), ops);
    StepKeeps(s, CommitTx(h, env));
    assert RecordOk(t.master, h);
    assert r in t.master.log[h].parts;
    StoryEnds(story, r);
    SiteFollowsStory(site, story);
  }
}
