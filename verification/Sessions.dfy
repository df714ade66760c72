/**
 Sessions: bound to threads, holding variables whose data is freed by destructors, announced to callbacks.

 Every value installed in a variable is numbered.  In every run the installed values are the live ones and
 the destructed ones, none of them twice; and when a session ends its callbacks all run before the first of
 its remaining variables is destructed.
*/
module Sessions {
  import opened Common

  datatype Var = Var(name: string, id: nat, data: int)

  // Session number h is at place h - 1; numbers are never used again, and 0 is no session.
  datatype Session = Session(alive: bool, vars: seq<Var>)

  // final: the variable still existed when its session ended.
  datatype Event =
    | Created(callback: nat, session: nat)
    | Destroyed(callback: nat, session: nat)
    | Destructor(session: nat, id: nat, final: bool)

  datatype State = State(sessions: seq<Session>, active: map<nat, nat>, callbacks: seq<nat>, nextCallback: nat,
                         installed: nat, log: seq<Event>)

  datatype Input = Input(name: string, data: int)

  // Whether the destructor of a value returns Ok.
  type Answers = nat -> bool

  datatype Op =
    | InitSession(thread: nat, inputs: seq<Input>, answers: Answers)
    | SetActive(thread: nat, session: nat)
    | DestroySession(thread: nat, answers: Answers)
    | SetVariable(session: nat, input: Input, answers: Answers)
    | RegisterCallbacks
    | UnregisterCallbacks(callback: nat)

  datatype Reply = Reply(state: State, code: ReturnCode)

  function Init(): State {
    State([], map[], [], 0, 0, [])
  }

  predicate Alive(s: State, h: nat) {
    1 <= h <= |s.sessions| && s.sessions[h - 1].alive
  }

  function ActiveOf(s: State, thread: nat): Option<nat> {
    if thread in s.active && Alive(s, s.active[thread]) then Some(s.active[thread]) else None
  }

  function IndexOf(vars: seq<Var>, name: string): (i: nat)
    ensures i <= |vars|
    ensures i < |vars| ==> vars[i].name == name
    ensures forall j :: 0 <= j < i ==> vars[j].name != name
  {
    if vars == [] || vars[0].name == name then 0 else 1 + IndexOf(vars[1..], name)
  }

  // Create or overwrite; what is overwritten is destructed first.
  function Installed(s: State, h: nat, v: Input): State
    requires Alive(s, h)
  {
    var vars := s.sessions[h - 1].vars;
    var i := IndexOf(vars, v.name);
    var newest := Var(v.name, s.installed, v.data);
    var after := if i < |vars| then vars[i := newest] else vars + [newest];
    s.(sessions := s.sessions[h - 1 := Session(true, after)], installed := s.installed + 1,
       log := s.log + if i < |vars| then [Destructor(h, vars[i].id, false)] else [])
  }

  function InstalledAll(s: State, h: nat, inputs: seq<Input>): (t: State)
    requires Alive(s, h)
    ensures Alive(t, h) && |t.sessions| == |s.sessions|
    decreases |inputs|
  {
    if inputs == [] then s else InstalledAll(Installed(s, h, inputs[0]), h, inputs[1..])
  }

  function Announced(callbacks: seq<nat>, h: nat, created: bool): seq<Event> {
    seq(|callbacks|, i requires 0 <= i < |callbacks| =>
      if created then Created(callbacks[i], h) else Destroyed(callbacks[i], h))
  }

  function Destructors(vars: seq<Var>, h: nat): seq<Event> {
    seq(|vars|, i requires 0 <= i < |vars| => Destructor(h, vars[i].id, true))
  }

  function Opened(s: State, thread: nat): State {
    s.(sessions := s.sessions + [Session(true, [])], active := s.active[thread := |s.sessions| + 1])
  }

  // A new session with its variables set and its creation announced.
  function Begun(s: State, thread: nat, inputs: seq<Input>): State {
    var h := |s.sessions| + 1;
    var u := InstalledAll(Opened(s, thread), h, inputs);
    u.(log := u.log + Announced(u.callbacks, h, true))
  }

  function Ended(s: State, h: nat): State
    requires Alive(s, h)
  {
    s.(sessions := s.sessions[h - 1 := Session(false, [])],
       log := s.log + Announced(s.callbacks, h, false) + Destructors(s.sessions[h - 1].vars, h))
  }

  function Step(s: State, op: Op): Reply {
    match op
    case InitSession(t, inputs, _) =>
      if ActiveOf(s, t).Some? then Reply(s, AlreadyExist)
      else
        Reply(Begun(s, t, inputs), Ok)
    case SetActive(t, h) =>
      if h == 0 then Reply(s.(active := s.active - {t}), Ok)
      else if Alive(s, h) then Reply(s.(active := s.active[t := h]), Ok)
      else Reply(s, NotExist)
    case DestroySession(t, answers) =>
      var h := ActiveOf(s, t);
      if h.None? then Reply(s.(active := s.active - {t}), Ok)
      else
        Reply(Ended(s, h.value).(active := s.active - {t}),
              if forall v <- s.sessions[h.value - 1].vars :: answers(v.id) then Ok else Failure)
    case SetVariable(h, v, answers) =>
      if !Alive(s, h) then Reply(s, NotExist)
      else
        var vars := s.sessions[h - 1].vars;
        var i := IndexOf(vars, v.name);
        Reply(Installed(s, h, v), if i < |vars| && !answers(vars[i].id) then Failure else Ok)
    case RegisterCallbacks =>
      Reply(s.(callbacks := s.callbacks + [s.nextCallback], nextCallback := s.nextCallback + 1), Ok)
    case UnregisterCallbacks(c) =>
      if c !in s.callbacks then Reply(s, NotExist) else Reply(s.(callbacks := Without(s.callbacks, c)), Ok)
  }

  function Run(s: State, ops: seq<Op>): State
    decreases |ops|
  {
    if ops == [] then s else Run(Step(s, ops[0]).state, ops[1..])
  }

  // ------------------------------------------------------------------ conservation of values

  function CountVars(vars: seq<Var>, id: nat): nat {
    if vars == [] then 0
    else CountVars(vars[..|vars| - 1], id) + if vars[|vars| - 1].id == id then 1 else 0
  }

  // In how many variables of how many sessions the value is.
  function CountLive(sessions: seq<Session>, id: nat): nat {
    if sessions == [] then 0
    else CountLive(sessions[..|sessions| - 1], id) + CountVars(sessions[|sessions| - 1].vars, id)
  }

  // How often the value has been destructed.
  function CountDestructed(log: seq<Event>, id: nat): nat {
    if log == [] then 0
    else
      var last := log[|log| - 1];
      CountDestructed(log[..|log| - 1], id) + if last.Destructor? && last.id == id then 1 else 0
  }

  // Every value ever installed is live once or destructed once.
  ghost predicate Conserved(s: State, id: nat) {
    CountLive(s.sessions, id) + CountDestructed(s.log, id) == if id < s.installed then 1 else 0
  }

  lemma {:induction false} VarsUpdate(vars: seq<Var>, i: nat, v: Var, id: nat)
    requires i < |vars|
    ensures CountVars(vars[i := v], id) + (if vars[i].id == id then 1 else 0)
         == CountVars(vars, id) + (if v.id == id then 1 else 0)
  {
    var n := |vars| - 1;
    if i < n {
      assert vars[i := v][..n] == vars[..n][i := v];
      VarsUpdate(vars[..n], i, v, id);
    } else {
      assert vars[i := v][..n] == vars[..n];
    }
  }

  lemma {:induction false} LiveUpdate(sessions: seq<Session>, i: nat, x: Session, id: nat)
    requires i < |sessions|
    ensures CountLive(sessions[i := x], id) + CountVars(sessions[i].vars, id)
         == CountLive(sessions, id) + CountVars(x.vars, id)
  {
    var n := |sessions| - 1;
    if i < n {
      assert sessions[i := x][..n] == sessions[..n][i := x];
      LiveUpdate(sessions[..n], i, x, id);
    } else {
      assert sessions[i := x][..n] == sessions[..n];
    }
  }

  lemma {:induction false} DestructedConcat(a: seq<Event>, b: seq<Event>, id: nat)
    ensures CountDestructed(a + b, id) == CountDestructed(a, id) + CountDestructed(b, id)
    decreases |b|
  {
    if b == [] {
      assert a + b == a;
    } else {
      var n := |b| - 1;
      assert (a + b)[..|a| + n] == a + b[..n];
      DestructedConcat(a, b[..n], id);
    }
  }

  lemma {:induction false} DestructorsDestruct(vars: seq<Var>, h: nat, id: nat)
    ensures CountDestructed(Destructors(vars, h), id) == CountVars(vars, id)
  {
    if vars != [] {
      var n := |vars| - 1;
      assert Destructors(vars, h)[..n] == Destructors(vars[..n], h);
      DestructorsDestruct(vars[..n], h, id);
    }
  }

  lemma {:induction false} AnnouncingDestructsNothing(callbacks: seq<nat>, h: nat, created: bool, id: nat)
    ensures CountDestructed(Announced(callbacks, h, created), id) == 0
  {
    if callbacks != [] {
      var n := |callbacks| - 1;
      assert Announced(callbacks, h, created)[..n] == Announced(callbacks[..n], h, created);
      AnnouncingDestructsNothing(callbacks[..n], h, created, id);
    }
  }

  lemma {:induction false} InstallConserves(s: State, h: nat, v: Input, id: nat)
    requires Alive(s, h) && Conserved(s, id)
    ensures Conserved(Installed(s, h, v), id)
  {
    var vars := s.sessions[h - 1].vars;
    var i := IndexOf(vars, v.name);
    var newest := Var(v.name, s.installed, v.data);
    LiveUpdate(s.sessions, h - 1, Installed(s, h, v).sessions[h - 1], id);
    if i < |vars| {
      var e := [Destructor(h, vars[i].id, false)];
      VarsUpdate(vars, i, newest, id);
      DestructedConcat(s.log, e, id);
      assert e[..0] == [];
    } else {
      assert (vars + [newest])[..|vars|] == vars;
      assert s.log + [] == s.log;
    }
  }

  lemma {:induction false} InstallAllConserves(s: State, h: nat, inputs: seq<Input>, id: nat)
    requires Alive(s, h) && Conserved(s, id)
    ensures Conserved(InstalledAll(s, h, inputs), id)
    decreases |inputs|
  {
    if inputs != [] {
      InstallConserves(s, h, inputs[0], id);
      InstallAllConserves(Installed(s, h, inputs[0]), h, inputs[1..], id);
    }
  }

  lemma {:induction false} EndConserves(s: State, h: nat, id: nat)
    requires Alive(s, h) && Conserved(s, id)
    ensures Conserved(Ended(s, h), id)
  {
    var vars := s.sessions[h - 1].vars;
    LiveUpdate(s.sessions, h - 1, Session(false, []), id);
    var a, d := Announced(s.callbacks, h, false), Destructors(vars, h);
    DestructedConcat(s.log + a, d, id);
    DestructedConcat(s.log, a, id);
    DestructorsDestruct(vars, h, id);
    AnnouncingDestructsNothing(s.callbacks, h, false, id);
  }

  lemma {:induction false} InitConserves(s: State, thread: nat, inputs: seq<Input>, id: nat)
    requires Conserved(s, id)
    ensures Conserved(Begun(s, thread, inputs), id)
  {
    var h := |s.sessions| + 1;
    var o := Opened(s, thread);
    assert o.sessions[..|s.sessions|] == s.sessions;
    InstallAllConserves(o, h, inputs, id);
    var u := InstalledAll(o, h, inputs);
    AnnouncingDestructsNothing(u.callbacks, h, true, id);
    DestructedConcat(u.log, Announced(u.callbacks, h, true), id);
  }

  lemma {:induction false} StepConserves(s: State, op: Op, id: nat)
    requires Conserved(s, id)
    ensures Conserved(Step(s, op).state, id)
  {
    match op {
      case InitSession(t, inputs, _) => InitConserves(s, t, inputs, id);
      case DestroySession(t, answers) => DestroyConserves(s, t, answers, id);
      case SetVariable(h, v, _) =>
        if Alive(s, h) {
          InstallConserves(s, h, v, id);
        }
      case SetActive(_, _) =>
      case RegisterCallbacks =>
      case UnregisterCallbacks(_) =>
    }
  }

  lemma {:induction false} DestroyConserves(s: State, t: nat, answers: Answers, id: nat)
    requires Conserved(s, id)
    ensures Conserved(Step(s, DestroySession(t, answers)).state, id)
  {
    if ActiveOf(s, t).Some? {
      EndConserves(s, ActiveOf(s, t).value, id);
    }
  }

  lemma {:induction false} RunConserves(s: State, ops: seq<Op>, id: nat)
    requires Conserved(s, id)
    ensures Conserved(Run(s, ops), id)
    decreases |ops|
  {
    if ops != [] {
      StepConserves(s, ops[0], id);
      RunConserves(Step(s, ops[0]).state, ops[1..], id);
    }
  }

  // In every run each value ever installed is either live in exactly one variable or destructed exactly once.
  lemma {:induction false} LiveOrDestructedOnce(ops: seq<Op>, id: nat)
    ensures var s := Run(Init(), ops);
      CountLive(s.sessions, id) + CountDestructed(s.log, id) == if id < s.installed then 1 else 0
  {
    RunConserves(Init(), ops, id);
  }

  // ------------------------------------------------------------------ callbacks before destructors

  predicate IsFinal(e: Event, h: nat) {
    e.Destructor? && e.final && e.session == h
  }

  // No callback about a session's end comes after one of the destructors that end runs, and a session that is alive
  // or yet to come has had none.
  ghost predicate Ordered(s: State) {
    && (forall i, j, h: nat ::
          0 <= i < j < |s.log| && IsFinal(s.log[i], h) ==> !(s.log[j].Destroyed? && s.log[j].session == h))
    && (forall h: nat :: Alive(s, h) || h > |s.sessions| ==> forall e :: e in s.log ==> !IsFinal(e, h))
  }

  // What is appended brings no final destructor of a session before a callback about its end.
  lemma {:induction false} AppendQuiet(s: State, t: State, more: seq<Event>)
    requires Ordered(s) && t.log == s.log + more
    requires forall e :: e in more ==> !e.Destroyed? && forall h: nat :: !IsFinal(e, h)
    requires forall h: nat :: Alive(t, h) || h > |t.sessions| ==> Alive(s, h) || h > |s.sessions|
    ensures Ordered(t)
  {
    forall i, j, h: nat | 0 <= i < j < |t.log| && IsFinal(t.log[i], h)
      ensures !(t.log[j].Destroyed? && t.log[j].session == h)
    {
      if j >= |s.log| {
        assert t.log[j] == more[j - |s.log|];
        assert more[j - |s.log|] in more;
      } else {
        assert t.log[i] == s.log[i] && t.log[j] == s.log[j];
      }
    }
    forall h: nat, e | (Alive(t, h) || h > |t.sessions|) && e in t.log ensures !IsFinal(e, h) {
      assert e in s.log || e in more;
    }
  }

  lemma {:induction false} InstallOrdered(s: State, h: nat, v: Input)
    requires Alive(s, h) && Ordered(s)
    ensures Ordered(Installed(s, h, v))
  {
    var t := Installed(s, h, v);
    AppendQuiet(s, t, t.log[|s.log|..]);
  }

  lemma {:induction false} InstallAllOrdered(s: State, h: nat, inputs: seq<Input>)
    requires Alive(s, h) && Ordered(s)
    ensures Ordered(InstalledAll(s, h, inputs))
    decreases |inputs|
  {
    if inputs != [] {
      InstallOrdered(s, h, inputs[0]);
      InstallAllOrdered(Installed(s, h, inputs[0]), h, inputs[1..]);
    }
  }

  lemma {:induction false} EndOrdered(s: State, h: nat)
    requires Alive(s, h) && Ordered(s)
    ensures Ordered(Ended(s, h))
  {
    var t := Ended(s, h);
    var a, d := Announced(s.callbacks, h, false), Destructors(s.sessions[h - 1].vars, h);
    var n := |s.log| + |a|;
    assert t.log == s.log + a + d;
    assert forall j :: |s.log| <= j < n ==> t.log[j] == a[j - |s.log|];
    assert forall j :: n <= j < |t.log| ==> t.log[j] == d[j - n];
    forall i, j, k: nat | 0 <= i < j < |t.log| && IsFinal(t.log[i], k)
      ensures !(t.log[j].Destroyed? && t.log[j].session == k)
    {
      if i < |s.log| {
        assert t.log[i] == s.log[i] && s.log[i] in s.log;
        if j < |s.log| {
          assert t.log[j] == s.log[j];
        }
      }
    }
    forall k: nat, e | (Alive(t, k) || k > |t.sessions|) && e in t.log ensures !IsFinal(e, k) {
      assert k != h && (Alive(s, k) || k > |s.sessions|);
      assert e in s.log || e in a || e in d;
    }
  }

  lemma {:induction false} StepOrdered(s: State, op: Op)
    requires Ordered(s)
    ensures Ordered(Step(s, op).state)
  {
    var t := Step(s, op).state;
    match op {
      case InitSession(thread, inputs, _) =>
        if ActiveOf(s, thread).None? {
          var h := |s.sessions| + 1;
          var o := Opened(s, thread);
          AppendQuiet(s, o, []);
          InstallAllOrdered(o, h, inputs);
          var u := InstalledAll(o, h, inputs);
          AppendQuiet(u, Begun(s, thread, inputs), Announced(u.callbacks, h, true));
        }
      case DestroySession(thread, _) =>
        if ActiveOf(s, thread).Some? {
          EndOrdered(s, ActiveOf(s, thread).value);
          var e := Ended(s, ActiveOf(s, thread).value);
          AppendQuiet(e, t, []);
        } else {
          AppendQuiet(s, t, []);
        }
      case SetVariable(h, v, _) =>
        if Alive(s, h) {
          InstallOrdered(s, h, v);
        }
      case _ => AppendQuiet(s, t, []);
    }
  }

  lemma {:induction false} RunOrdered(s: State, ops: seq<Op>)
    requires Ordered(s)
    ensures Ordered(Run(s, ops))
    decreases |ops|
  {
    if ops != [] {
      StepOrdered(s, ops[0]);
      RunOrdered(Step(s, ops[0]).state, ops[1..]);
    }
  }

  // In every run, at each callback about a session's end none of the variables the session ends with has been
  // destructed yet.
  lemma {:induction false} VariablesExistDuringCallbacks(ops: seq<Op>, h: nat, i: nat, j: nat)
    requires var log := Run(Init(), ops).log;
      i < |log| && j < |log| && log[i].Destroyed? && log[i].session == h && IsFinal(log[j], h)
    ensures i < j
  {
    RunOrdered(Init(), ops);
    var log := Run(Init(), ops).log;
    assert i != j;
  }

  // What a variable reads as is the last value set for it.
  function Read(s: State, h: nat, name: string): Option<int> {
    if !Alive(s, h) then None
    else
      var vars := s.sessions[h - 1].vars;
      var i := IndexOf(vars, name);
      if i < |vars| then Some(vars[i].data) else None
  }

  lemma {:induction false} IndexAfterUpdate(vars: seq<Var>, i: nat, v: Var, name: string)
    requires i < |vars| && v.name == vars[i].name
    ensures IndexOf(vars[i := v], name) == IndexOf(vars, name)
  {
    if vars[0].name != name && i > 0 {
      assert vars[i := v][1..] == vars[1..][i - 1 := v];
      IndexAfterUpdate(vars[1..], i - 1, v, name);
    } else if i == 0 {
      assert vars[i := v][1..] == vars[1..];
    }
  }

  lemma {:induction false} IndexAfterAppend(vars: seq<Var>, v: Var, name: string)
    ensures var i := IndexOf(vars, name);
      IndexOf(vars + [v], name) == if i < |vars| then i else if v.name == name then |vars| else |vars| + 1
  {
    if vars == [] {
      assert ([] + [v])[1..] == [];
    } else if vars[0].name != name {
      assert (vars + [v])[1..] == vars[1..] + [v];
      IndexAfterAppend(vars[1..], v, name);
    }
  }

  lemma {:induction false} SetThenRead(s: State, h: nat, v: Input, k: nat, name: string)
    requires Alive(s, h)
    ensures Read(Installed(s, h, v), k, name) == if k == h && name == v.name then Some(v.data) else Read(s, k, name)
  {
    var vars := s.sessions[h - 1].vars;
    var i := IndexOf(vars, v.name);
    var newest := Var(v.name, s.installed, v.data);
    if i < |vars| {
      IndexAfterUpdate(vars, i, newest, name);
    } else {
      IndexAfterAppend(vars, newest, name);
    }
  }

  function LastInput(inputs: seq<Input>, name: string): Option<int> {
    if inputs == [] then None
    else if inputs[|inputs| - 1].name == name then Some(inputs[|inputs| - 1].data)
    else LastInput(inputs[..|inputs| - 1], name)
  }

  lemma {:induction false} InstallAllSnoc(s: State, h: nat, inputs: seq<Input>, v: Input)
    requires Alive(s, h)
    ensures InstalledAll(s, h, inputs + [v]) == Installed(InstalledAll(s, h, inputs), h, v)
    decreases |inputs|
  {
    if inputs == [] {
      assert [] + [v] == [v] && [v][1..] == [];
    } else {
      assert (inputs + [v])[1..] == inputs[1..] + [v];
      InstallAllSnoc(Installed(s, h, inputs[0]), h, inputs[1..], v);
    }
  }

  lemma {:induction false} InstallAllThenRead(s: State, h: nat, inputs: seq<Input>, k: nat, name: string)
    requires Alive(s, h)
    ensures Read(InstalledAll(s, h, inputs), k, name) ==
      if k == h && LastInput(inputs, name).Some? then LastInput(inputs, name) else Read(s, k, name)
    decreases |inputs|
  {
    if inputs != [] {
      var n := |inputs| - 1;
      assert inputs == inputs[..n] + [inputs[n]];
      InstallAllSnoc(s, h, inputs[..n], inputs[n]);
      InstallAllThenRead(s, h, inputs[..n], k, name);
      SetThenRead(InstalledAll(s, h, inputs[..n]), h, inputs[n], k, name);
    }
  }

  // A new session reads as the variables it was given, the last of each name, and no other session changes.
  lemma {:induction false} NewSessionReadsInputs(s: State, thread: nat, inputs: seq<Input>, k: nat, name: string)
    ensures Read(Begun(s, thread, inputs), k, name) ==
      if k == |s.sessions| + 1 then LastInput(inputs, name) else Read(s, k, name)
  {
    InstallAllThenRead(Opened(s, thread), |s.sessions| + 1, inputs, k, name);
  }

  lemma {:induction false} StepKeepsVariable(s: State, op: Op, h: nat, name: string)
    requires Alive(s, h) && Alive(Step(s, op).state, h)
    requires !(op.SetVariable? && op.session == h && op.input.name == name)
    ensures Read(Step(s, op).state, h, name) == Read(s, h, name)
  {
    match op {
      case InitSession(t, inputs, _) =>
        if ActiveOf(s, t).None? {
          NewSessionReadsInputs(s, t, inputs, h, name);
        }
      case SetVariable(k, v, _) =>
        if Alive(s, k) {
          SetThenRead(s, k, v, h, name);
        }
      case _ =>
    }
  }

  // A session that has ended stays so.
  lemma {:induction false} EndedStaysEnded(s: State, op: Op, h: nat)
    requires 1 <= h <= |s.sessions| && !Alive(s, h)
    ensures var t := Step(s, op).state; h <= |t.sessions| && !Alive(t, h)
  {
    match op {
      case InitSession(t, inputs, _) =>
        if ActiveOf(s, t).None? {
          OnlyItsSession(Opened(s, t), |s.sessions| + 1, inputs);
        }
      case _ =>
    }
  }

  lemma {:induction false} OnlyItsSession(s: State, h: nat, inputs: seq<Input>)
    requires Alive(s, h)
    ensures forall k :: 0 <= k < |s.sessions| && k != h - 1 ==> InstalledAll(s, h, inputs).sessions[k] == s.sessions[k]
    decreases |inputs|
  {
    if inputs != [] {
      OnlyItsSession(Installed(s, h, inputs[0]), h, inputs[1..]);
    }
  }

  lemma {:induction false} VariableStays(s: State, ops: seq<Op>, h: nat, name: string)
    requires Alive(s, h) && Alive(Run(s, ops), h)
    requires forall op :: op in ops && op.SetVariable? ==> !(op.session == h && op.input.name == name)
    ensures Read(Run(s, ops), h, name) == Read(s, h, name)
    decreases |ops|
  {
    if ops != [] {
      var t := Step(s, ops[0]).state;
      assert ops[0] in ops;
      if Alive(t, h) {
        StepKeepsVariable(s, ops[0], h, name);
        VariableStays(t, ops[1..], h, name);
      } else {
        SessionsOnlyGrow(s, ops[0]);
        NeverAliveAgain(t, ops[1..], h);
      }
    }
  }

  lemma {:induction false} SessionsOnlyGrow(s: State, op: Op)
    ensures |s.sessions| <= |Step(s, op).state.sessions|
  {
  }

  lemma {:induction false} NeverAliveAgain(s: State, ops: seq<Op>, h: nat)
    requires 1 <= h <= |s.sessions| && !Alive(s, h)
    ensures !Alive(Run(s, ops), h)
    decreases |ops|
  {
    if ops != [] {
      EndedStaysEnded(s, ops[0], h);
      NeverAliveAgain(Step(s, ops[0]).state, ops[1..], h);
    }
  }

  // What was set, whatever the destructor of the old value answered, is read after any run that neither sets the
  // variable again nor ends the session: other variables, other sessions, threads and callbacks do what they like.
  lemma {:induction false} VariableIsRemembered(s: State, h: nat, v: Input, answers: Answers, ops: seq<Op>)
    requires Alive(s, h) && Alive(Run(Step(s, SetVariable(h, v, answers)).state, ops), h)
    requires forall op :: op in ops && op.SetVariable? ==> !(op.session == h && op.input.name == v.name)
    ensures Read(Run(Step(s, SetVariable(h, v, answers)).state, ops), h, v.name) == Some(v.data)
  {
    SetThenRead(s, h, v, h, v.name);
    VariableStays(Step(s, SetVariable(h, v, answers)).state, ops, h, v.name);
  }

  // ------------------------------------------------------------------ the service

  class SessionService {
    var sessions: seq<Session>
    var active: map<nat, nat>
    var callbacks: seq<nat>
    var nextCallback: nat
    var installed: nat
    ghost var log: seq<Event>

    ghost function Now(): State
      reads this
    {
      State(sessions, active, callbacks, nextCallback, installed, log)
    }

    constructor ()
      ensures Now() == Init()
    {
      sessions, active, callbacks, nextCallback, installed, log := [], map[], [], 0, 0, [];
    }

    method Install(h: nat, v: Input, answers: Answers) returns (rc: ReturnCode)
      requires Alive(Now(), h)
      modifies this
      ensures Now() == Installed(old(Now()), h, v)
      ensures var vars := old(sessions)[h - 1].vars; var i := IndexOf(vars, v.name);
        rc == if i < |vars| && !answers(vars[i].id) then Failure else Ok
    {
      var vars := sessions[h - 1].vars;
      var i := 0;
      while i < |vars| && vars[i].name != v.name
        invariant 0 <= i <= |vars|
        invariant forall j :: 0 <= j < i ==> vars[j].name != v.name
      {
        i := i + 1;
      }
      rc := Ok;
      if i < |vars| {
        if !answers(vars[i].id) {
          rc := Failure;
        }
        log := log + [Destructor(h, vars[i].id, false)];
        vars := vars[i := Var(v.name, installed, v.data)];
      } else {
        vars := vars + [Var(v.name, installed, v.data)];
      }
      sessions := sessions[h - 1 := Session(true, vars)];
      installed := installed + 1;
    }

    method Announce(h: nat, created: bool)
      modifies this`log
      ensures log == old(log) + Announced(callbacks, h, created)
    {
      for i := 0 to |callbacks|
        invariant log == old(log) + Announced(callbacks, h, created)[..i]
      {
        log := log + [if created then Created(callbacks[i], h) else Destroyed(callbacks[i], h)];
      }
    }

    method InitNewSession(thread: nat, inputs: seq<Input>, answers: Answers) returns (rc: ReturnCode, h: nat)
      modifies this
      ensures Reply(Now(), rc) == Step(old(Now()), InitSession(thread, inputs, answers))
      ensures rc == Ok ==> ActiveOf(Now(), thread) == Some(h)
    {
      h := |sessions| + 1;
      if thread in active && 1 <= active[thread] <= |sessions| && sessions[active[thread] - 1].alive {
        return AlreadyExist, h;
      }
      sessions := sessions + [Session(true, [])];
      active := active[thread := h];
      ghost var begun := Now();
      assert begun == Opened(old(Now()), thread);
      for i := 0 to |inputs|
        invariant Alive(Now(), h) && active == begun.active && |sessions| == |begun.sessions|
        invariant InstalledAll(Now(), h, inputs[i..]) == InstalledAll(begun, h, inputs)
      {
        assert inputs[i..][1..] == inputs[i + 1..];
        var _ := Install(h, inputs[i], answers);
      }
      Announce(h, true);
      rc := Ok;
    }

    method GetActive(thread: nat) returns (rc: ReturnCode, h: nat)
      ensures rc == Ok <==> ActiveOf(Now(), thread).Some?
      ensures rc == Ok ==> ActiveOf(Now(), thread) == Some(h)
      ensures rc != Ok ==> rc == NotExist
    {
      rc, h := NotExist, 0;
      if thread in active && 1 <= active[thread] <= |sessions| && sessions[active[thread] - 1].alive {
        rc, h := Ok, active[thread];
      }
    }

    method AddCallbacks() returns (c: nat)
      modifies this
      ensures Reply(Now(), Ok) == Step(old(Now()), RegisterCallbacks) && c == old(nextCallback)
    {
      c := nextCallback;
      callbacks := callbacks + [c];
      nextCallback := nextCallback + 1;
    }

    method RemoveCallbacks(c: nat) returns (rc: ReturnCode)
      modifies this
      ensures Reply(Now(), rc) == Step(old(Now()), UnregisterCallbacks(c))
    {
      if c !in callbacks {
        return NotExist;
      }
      callbacks := DropAll(callbacks, c);
      rc := Ok;
    }

    method Activate(thread: nat, h: nat) returns (rc: ReturnCode)
      modifies this
      ensures Reply(Now(), rc) == Step(old(Now()), SetActive(thread, h))
    {
      if h == 0 {
        active := active - {thread};
        return Ok;
      }
      if h > |sessions| || !sessions[h - 1].alive {
        return NotExist;
      }
      active := active[thread := h];
      rc := Ok;
    }

    method Destroy(thread: nat, answers: Answers) returns (rc: ReturnCode)
      modifies this
      ensures Reply(Now(), rc) == Step(old(Now()), DestroySession(thread, answers))
    {
      rc := Ok;
      if thread in active && 1 <= active[thread] <= |sessions| && sessions[active[thread] - 1].alive {
        var h := active[thread];
        Announce(h, false);
        var vars := sessions[h - 1].vars;
        ghost var announced := log;
        for i := 0 to |vars|
          invariant log == announced + Destructors(vars, h)[..i]
          invariant unchanged(`sessions) && unchanged(`active) && unchanged(`callbacks)
          invariant unchanged(`nextCallback) && unchanged(`installed)
          invariant rc == if forall j :: 0 <= j < i ==> answers(vars[j].id) then Ok else Failure
        {
          if !answers(vars[i].id) {
            rc := Failure;
          }
          log := log + [Destructor(h, vars[i].id, true)];
        }
        sessions := sessions[h - 1 := Session(false, [])];
      }
      active := active - {thread};
    }

    method SetSessionVariable(h: nat, v: Input, answers: Answers) returns (rc: ReturnCode)
      modifies this
      ensures Reply(Now(), rc) == Step(old(Now()), SetVariable(h, v, answers))
    {
      if h == 0 || h > |sessions| || !sessions[h - 1].alive {
        return NotExist;
      }
      rc := Install(h, v, answers);
    }

    method GetVariable(h: nat, name: string) returns (rc: ReturnCode, data: int)
      ensures rc == Ok <==> Read(Now(), h, name).Some?
      ensures rc == Ok ==> Read(Now(), h, name) == Some(data)
      ensures rc != Ok ==> rc == NotExist
    {
      rc, data := NotExist, 0;
      if 1 <= h <= |sessions| && sessions[h - 1].alive {
        var vars := sessions[h - 1].vars;
        for i := 0 to |vars|
          invariant forall j :: 0 <= j < i ==> vars[j].name != name
        {
          if vars[i].name == name {
            rc, data := Ok, vars[i].data;
            return;
          }
        }
      }
    }
  }
}
