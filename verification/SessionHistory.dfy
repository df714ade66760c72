/**
 Sessions told from the requests made: which sessions are alive, which callbacks are registered, which session a
 thread is bound to, what decides each answer, and that every registered callback hears of every session's beginning
 and end exactly once.
*/
module SessionHistory {
  import opened Common
  import opened Sessions

  // ------------------------------------------------------------------ what every run keeps

  ghost predicate NamesDiffer(vars: seq<Var>) {
    forall i, j :: 0 <= i < j < |vars| ==> vars[i].name != vars[j].name
  }

  ghost predicate Sound(s: State) {
    && NoDup(s.callbacks) && (forall c <- s.callbacks :: c < s.nextCallback)
    && (forall t <- s.active :: s.active[t] <= |s.sessions|)
    && (forall i :: 0 <= i < |s.sessions| ==> NamesDiffer(s.sessions[i].vars))
  }

  lemma {:induction false} InstallSound(s: State, h: nat, v: Input)
    requires Alive(s, h) && Sound(s)
    ensures Sound(Installed(s, h, v))
  {
    var vars := s.sessions[h - 1].vars;
    assert NamesDiffer(vars);
    assert NamesDiffer(Installed(s, h, v).sessions[h - 1].vars);
  }

  lemma {:induction false} InstallAllSound(s: State, h: nat, inputs: seq<Input>)
    requires Alive(s, h) && Sound(s)
    ensures var t := InstalledAll(s, h, inputs);
      Sound(t) && t.callbacks == s.callbacks && t.active == s.active && t.nextCallback == s.nextCallback
    decreases |inputs|
  {
    if inputs != [] {
      InstallSound(s, h, inputs[0]);
      InstallAllSound(Installed(s, h, inputs[0]), h, inputs[1..]);
    }
  }

  lemma {:induction false} OpenedSound(s: State, t: nat)
    requires Sound(s)
    ensures Sound(Opened(s, t))
  {
  }

  lemma {:induction false} EndedSound(s: State, h: nat)
    requires Sound(s) && Alive(s, h)
    ensures Sound(Ended(s, h))
  {
  }

  lemma {:induction false} StepSound(s: State, op: Op)
    requires Sound(s)
    ensures Sound(Step(s, op).state)
  {
    match op {
      case InitSession(t, inputs, _) =>
        if ActiveOf(s, t).None? {
          OpenedSound(s, t);
          InstallAllSound(Opened(s, t), |s.sessions| + 1, inputs);
        }
      case DestroySession(t, _) =>
        if ActiveOf(s, t).Some? {
          EndedSound(s, ActiveOf(s, t).value);
        }
      case SetVariable(h, v, _) =>
        if Alive(s, h) {
          InstallSound(s, h, v);
        }
      case UnregisterCallbacks(c) => WithoutIs(s.callbacks, c);
      case RegisterCallbacks => NoDupConcat(s.callbacks, [s.nextCallback]);
      case _ =>
    }
  }

  lemma {:induction false} RunSnoc(s: State, ops: seq<Op>, op: Op)
    ensures Run(s, ops + [op]) == Step(Run(s, ops), op).state
    decreases |ops|
  {
    if ops == [] {
      assert ([] + [op])[1..] == [];
    } else {
      assert (ops + [op])[1..] == ops[1..] + [op];
      RunSnoc(Step(s, ops[0]).state, ops[1..], op);
    }
  }

  lemma {:induction false} RunSound(s: State, ops: seq<Op>)
    requires Sound(s)
    ensures Sound(Run(s, ops))
    decreases |ops|
  {
    if ops != [] {
      StepSound(s, ops[0]);
      RunSound(Step(s, ops[0]).state, ops[1..]);
    }
  }

  lemma {:induction false} LastStep(ops: seq<Op>)
    requires ops != []
    ensures var before, op := ops[..|ops| - 1], ops[|ops| - 1];
      Run(Init(), ops) == Step(Run(Init(), before), op).state && Sound(Run(Init(), before))
  {
    var before, op := ops[..|ops| - 1], ops[|ops| - 1];
    assert ops == before + [op];
    RunSnoc(Init(), before, op);
    RunSound(Init(), before);
  }

  // ------------------------------------------------------------------ which sessions are alive

  // The request ends session h: it destroys the session its thread is bound to, and that is h.
  predicate Ends(s: State, op: Op, h: nat) {
    op.DestroySession? && ActiveOf(s, op.thread) == Some(h)
  }

  // The request begins session h.
  predicate Begins(s: State, op: Op, h: nat) {
    op.InitSession? && ActiveOf(s, op.thread).None? && h == |s.sessions| + 1
  }

  lemma {:induction false} InstallAllAlive(s: State, h: nat, inputs: seq<Input>, k: nat)
    requires Alive(s, h)
    ensures Alive(InstalledAll(s, h, inputs), k) <==> Alive(s, k)
    ensures |InstalledAll(s, h, inputs).sessions| == |s.sessions|
    decreases |inputs|
  {
    if inputs != [] {
      InstallAllAlive(Installed(s, h, inputs[0]), h, inputs[1..], k);
    }
  }

  lemma {:induction false} StepAlive(s: State, op: Op, h: nat)
    ensures var t := Step(s, op).state;
      && (Alive(t, h) <==> Begins(s, op, h) || (Alive(s, h) && !Ends(s, op, h)))
      && |t.sessions| == |s.sessions| + if Begins(s, op, |s.sessions| + 1) then 1 else 0
  {
    if op.InitSession? && ActiveOf(s, op.thread).None? {
      InstallAllAlive(Opened(s, op.thread), |s.sessions| + 1, op.inputs, h);
    }
  }

  // Session h was begun in the run and has not been ended since.
  ghost predicate SessionThere(ops: seq<Op>, h: nat) {
    ops != [] &&
    (var before, op := ops[..|ops| - 1], ops[|ops| - 1]; var s := Run(Init(), before);
     Begins(s, op, h) || (SessionThere(before, h) && !Ends(s, op, h)))
  }

  ghost predicate CallbackThere(ops: seq<Op>, c: nat) {
    ops != [] &&
    (var before, op := ops[..|ops| - 1], ops[|ops| - 1];
     (op.RegisterCallbacks? && Run(Init(), before).nextCallback == c)
     || (CallbackThere(before, c) && op != UnregisterCallbacks(c)))
  }

  lemma {:induction false} StepCallbacks(s: State, op: Op, c: nat)
    requires Sound(s)
    ensures c in Step(s, op).state.callbacks <==>
      (op.RegisterCallbacks? && s.nextCallback == c) || (c in s.callbacks && op != UnregisterCallbacks(c))
  {
    match op {
      case UnregisterCallbacks(d) => WithoutIs(s.callbacks, d);
      case InitSession(t, inputs, _) =>
        if ActiveOf(s, t).None? {
          OpenedSound(s, t);
          InstallAllSound(Opened(s, t), |s.sessions| + 1, inputs);
        }
      case _ =>
    }
  }

  // In every run a session is alive, and a callback registered, exactly as the requests say.
  lemma {:induction false} AliveIsHistory(ops: seq<Op>, h: nat, c: nat)
    ensures var s := Run(Init(), ops);
      (Alive(s, h) <==> SessionThere(ops, h)) && (c in s.callbacks <==> CallbackThere(ops, c))
  {
    if ops != [] {
      var before, op := ops[..|ops| - 1], ops[|ops| - 1];
      AliveIsHistory(before, h, c);
      LastStep(ops);
      StepAlive(Run(Init(), before), op, h);
      StepCallbacks(Run(Init(), before), op, c);
    }
  }

  // ------------------------------------------------------------------ callbacks

  function CountEvent(log: seq<Event>, e: Event): nat {
    if log == [] then 0 else CountEvent(log[..|log| - 1], e) + if log[|log| - 1] == e then 1 else 0
  }

  lemma {:induction false} CountConcat(a: seq<Event>, b: seq<Event>, e: Event)
    ensures CountEvent(a + b, e) == CountEvent(a, e) + CountEvent(b, e)
    decreases |b|
  {
    if b == [] {
      assert a + b == a;
    } else {
      var n := |b| - 1;
      assert (a + b)[..|a| + n] == a + b[..n];
      CountConcat(a, b[..n], e);
    }
  }

  lemma {:induction false} CountAnnounced(callbacks: seq<nat>, h: nat, created: bool, e: Event)
    requires NoDup(callbacks) && !e.Destructor?
    ensures CountEvent(Announced(callbacks, h, created), e) ==
      if e.callback in callbacks && e.session == h && e.Created? == created then 1 else 0
  {
    if callbacks != [] {
      var n := |callbacks| - 1;
      assert Announced(callbacks, h, created)[..n] == Announced(callbacks[..n], h, created);
      CountAnnounced(callbacks[..n], h, created, e);
      assert callbacks == callbacks[..n] + [callbacks[n]];
    }
  }

  lemma {:induction false} CountDestructors(vars: seq<Var>, h: nat, e: Event)
    requires !e.Destructor?
    ensures CountEvent(Destructors(vars, h), e) == 0
  {
    if vars != [] {
      var n := |vars| - 1;
      assert Destructors(vars, h)[..n] == Destructors(vars[..n], h);
      CountDestructors(vars[..n], h, e);
    }
  }

  lemma {:induction false} InstallTellsNobody(s: State, h: nat, v: Input, e: Event)
    requires Alive(s, h) && !e.Destructor?
    ensures CountEvent(Installed(s, h, v).log, e) == CountEvent(s.log, e)
  {
    var more := Installed(s, h, v).log[|s.log|..];
    assert Installed(s, h, v).log == s.log + more && |more| <= 1;
    CountConcat(s.log, more, e);
    if more != [] {
      assert more[..0] == [];
    }
  }

  lemma {:induction false} InstallAllTellsNobody(s: State, h: nat, inputs: seq<Input>, e: Event)
    requires Alive(s, h) && !e.Destructor?
    ensures CountEvent(InstalledAll(s, h, inputs).log, e) == CountEvent(s.log, e)
    decreases |inputs|
  {
    if inputs != [] {
      InstallTellsNobody(s, h, inputs[0], e);
      InstallAllTellsNobody(Installed(s, h, inputs[0]), h, inputs[1..], e);
    }
  }

  // The request makes the callback e.
  predicate Tells(s: State, op: Op, e: Event) {
    match e
    case Created(c, h) => Begins(s, op, h) && c in s.callbacks
    case Destroyed(c, h) => Ends(s, op, h) && c in s.callbacks
    case _ => false
  }

  lemma {:induction false} BeginTells(s: State, t: nat, inputs: seq<Input>, e: Event)
    requires Sound(s) && !e.Destructor?
    ensures CountEvent(Begun(s, t, inputs).log, e) ==
      CountEvent(s.log, e) + if e.Created? && e.session == |s.sessions| + 1 && e.callback in s.callbacks then 1 else 0
  {
    var h := |s.sessions| + 1;
    var o := Opened(s, t);
    OpenedSound(s, t);
    InstallAllSound(o, h, inputs);
    InstallAllTellsNobody(o, h, inputs, e);
    var u := InstalledAll(o, h, inputs);
    CountConcat(u.log, Announced(u.callbacks, h, true), e);
    CountAnnounced(u.callbacks, h, true, e);
  }

  lemma {:induction false} EndTells(s: State, h: nat, e: Event)
    requires Sound(s) && Alive(s, h) && !e.Destructor?
    ensures CountEvent(Ended(s, h).log, e) ==
      CountEvent(s.log, e) + if e.Destroyed? && e.session == h && e.callback in s.callbacks then 1 else 0
  {
    var a, d := Announced(s.callbacks, h, false), Destructors(s.sessions[h - 1].vars, h);
    CountConcat(s.log + a, d, e);
    CountConcat(s.log, a, e);
    CountAnnounced(s.callbacks, h, false, e);
    CountDestructors(s.sessions[h - 1].vars, h, e);
  }

  lemma {:induction false} StepTells(s: State, op: Op, e: Event)
    requires Sound(s) && !e.Destructor?
    ensures CountEvent(Step(s, op).state.log, e) == CountEvent(s.log, e) + if Tells(s, op, e) then 1 else 0
  {
    match op {
      case InitSession(t, inputs, _) =>
        if ActiveOf(s, t).None? {
          BeginTells(s, t, inputs, e);
        }
      case DestroySession(t, _) =>
        if ActiveOf(s, t).Some? {
          EndTells(s, ActiveOf(s, t).value, e);
        }
      case SetVariable(h, v, _) =>
        if Alive(s, h) {
          InstallTellsNobody(s, h, v, e);
        }
      case _ =>
    }
  }

  // What ending session h does, in this order: every registered callback is called, in order of registration; then
  // every variable the session has is destructed.
  lemma {:induction false} EndDoes(s: State, op: Op, h: nat)
    requires Ends(s, op, h)
    ensures var log := Step(s, op).state.log; var vars := s.sessions[h - 1].vars; var n := |s.log| + |s.callbacks|;
      && |log| == n + |vars| && log[..|s.log|] == s.log
      && (forall i :: 0 <= i < |s.callbacks| ==> log[|s.log| + i] == Destroyed(s.callbacks[i], h))
      && (forall i :: 0 <= i < |vars| ==> log[n + i] == Destructor(h, vars[i].id, true))
  {
  }

  // What beginning session h does last: every registered callback is called, in order of registration.
  lemma {:induction false} BeginDoes(s: State, op: Op, h: nat)
    requires Sound(s) && Begins(s, op, h)
    ensures var log := Step(s, op).state.log; var n := |log| - |s.callbacks|;
      && n >= 0 && forall i :: 0 <= i < |s.callbacks| ==> log[n + i] == Created(s.callbacks[i], h)
  {
    OpenedSound(s, op.thread);
    InstallAllSound(Opened(s, op.thread), h, op.inputs);
  }

  // Overwriting a variable destructs the value it had; setting a new one destructs nothing.
  lemma {:induction false} SetDestructs(s: State, h: nat, x: Input, answers: Answers)
    requires Alive(s, h)
    ensures var vars := s.sessions[h - 1].vars; var i := IndexOf(vars, x.name);
      Step(s, SetVariable(h, x, answers)).state.log ==
        s.log + if i < |vars| then [Destructor(h, vars[i].id, false)] else []
  {
  }

  // Some request of the run made the callback e.
  ghost predicate Told(ops: seq<Op>, e: Event) {
    ops != [] &&
    (Tells(Run(Init(), ops[..|ops| - 1]), ops[|ops| - 1], e) || Told(ops[..|ops| - 1], e))
  }

  // A session that some callback has heard the end of is over, and one it has heard the beginning of has begun.
  lemma {:induction false} ToldIsPast(ops: seq<Op>, e: Event)
    requires Told(ops, e)
    ensures var s := Run(Init(), ops);
      && 1 <= e.session <= |s.sessions| && (e.Destroyed? ==> !Alive(s, e.session))
  {
    var before, op := ops[..|ops| - 1], ops[|ops| - 1];
    LastStep(ops);
    StepAlive(Run(Init(), before), op, e.session);
    if Told(before, e) {
      ToldIsPast(before, e);
    }
  }

  // In every run each callback registered when a session begins is told of it exactly once, and likewise of its end;
  // nobody else is told, and nobody twice.
  lemma {:induction false} CallbacksHearOnce(ops: seq<Op>, e: Event)
    requires !e.Destructor?
    ensures CountEvent(Run(Init(), ops).log, e) == if Told(ops, e) then 1 else 0
  {
    if ops != [] {
      var before, op := ops[..|ops| - 1], ops[|ops| - 1];
      CallbacksHearOnce(before, e);
      LastStep(ops);
      StepTells(Run(Init(), before), op, e);
      if Told(before, e) {
        ToldIsPast(before, e);
      }
    }
  }

  // ------------------------------------------------------------------ which session a thread is bound to

  lemma {:induction false} StepBinding(s: State, op: Op, t: nat)
    requires Sound(s)
    ensures ActiveOf(Step(s, op).state, t) ==
      match op
      case InitSession(u, _, _) => if u == t && ActiveOf(s, t).None? then Some(|s.sessions| + 1) else ActiveOf(s, t)
      case SetActive(u, h) =>
        if u != t then ActiveOf(s, t)
        else if h == 0 then None
        else if Alive(s, h) then Some(h) else ActiveOf(s, t)
      case DestroySession(u, _) =>
        if u == t || (ActiveOf(s, u).Some? && ActiveOf(s, u) == ActiveOf(s, t)) then None else ActiveOf(s, t)
      case _ => ActiveOf(s, t)
  {
    match op {
      case InitSession(u, inputs, _) =>
        if ActiveOf(s, u).None? {
          var o := Opened(s, u);
          OpenedSound(s, u);
          InstallAllSound(o, |s.sessions| + 1, inputs);
          if t in o.active {
            InstallAllAlive(o, |s.sessions| + 1, inputs, o.active[t]);
          }
        }
      case _ =>
    }
  }

  ghost predicate ByThread(op: Op, t: nat) {
    (op.InitSession? || op.SetActive? || op.DestroySession?) && op.thread == t
  }

  // A thread that has been bound to a session stays bound to it through anything that other threads do, until that
  // session ends.
  lemma {:induction false} BindingStays(s: State, ops: seq<Op>, t: nat, h: nat)
    requires Sound(s) && ActiveOf(s, t) == Some(h) && Alive(Run(s, ops), h)
    requires forall op <- ops :: !ByThread(op, t)
    ensures ActiveOf(Run(s, ops), t) == Some(h)
    decreases |ops|
  {
    if ops != [] {
      var u := Step(s, ops[0]).state;
      assert ops[0] in ops;
      StepSound(s, ops[0]);
      StepAlive(s, ops[0], h);
      if !Alive(u, h) {
        NeverAliveAgain(u, ops[1..], h);
      }
      StepBinding(s, ops[0], t);
      BindingStays(u, ops[1..], t, h);
    }
  }

  // ------------------------------------------------------------------ codes

  lemma {:induction false} NamedIs(vars: seq<Var>, name: string, answers: Answers)
    requires NamesDiffer(vars)
    ensures var i := IndexOf(vars, name);
      (i < |vars| && !answers(vars[i].id)) <==> exists v :: v in vars && v.name == name && !answers(v.id)
  {
    var i := IndexOf(vars, name);
    if v :| v in vars && v.name == name && !answers(v.id) {
      var j :| 0 <= j < |vars| && vars[j] == v;
      assert i <= j;
      assert !(i < j);
    }
  }

  // What each request is answered.
  lemma {:induction false} SessionCodes(s: State, op: Op)
    requires Sound(s)
    ensures Step(s, op).code ==
      match op
      case InitSession(t, _, _) => if ActiveOf(s, t).Some? then AlreadyExist else Ok
      case SetActive(_, h) => if h == 0 || Alive(s, h) then Ok else NotExist
      case DestroySession(t, answers) =>
        var h := ActiveOf(s, t);
        if h.Some? && exists v :: v in s.sessions[h.value - 1].vars && !answers(v.id) then Failure else Ok
      case SetVariable(h, x, answers) =>
        if !Alive(s, h) then NotExist
        else if exists v :: v in s.sessions[h - 1].vars && v.name == x.name && !answers(v.id) then Failure else Ok
      case RegisterCallbacks => Ok
      case UnregisterCallbacks(c) => if c in s.callbacks then Ok else NotExist
  {
    if op.SetVariable? && Alive(s, op.session) {
      NamedIs(s.sessions[op.session - 1].vars, op.input.name, op.answers);
    }
  }
}
