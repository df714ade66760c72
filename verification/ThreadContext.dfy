/**
 Per-thread messages in two categories, read through iterators.

 An iterator holds a snapshot of the messages present when it was made.  The results: in every run, what a
 handle has given followed by what it still holds is that snapshot; and a handle stays usable exactly until
 its iteration ends, it is released or its category is cleared.
*/
module ThreadContext {
  import opened Common

  datatype Category = Log | Nbi

  // A handle of getMessages can only be released.
  datatype Handle = Iterating(category: Category, rest: seq<string>) | Holding

  datatype Context = Context(log: seq<string>, nbi: seq<string>, handles: map<nat, Handle>, next: nat)

  datatype Op =
    | AddMessage(category: Category, message: string)
    | NewMessageIterator(category: Category)
    | NextMessage(handle: nat)
    | ClearMessages(category: Category)
    | GetMessages(category: Category)
    | ReleaseHandle(handle: nat)

  // message is given by nextMessage; None there with Ok is the end of the iteration.
  datatype Reply = Reply(context: Context, code: ReturnCode, message: Option<string>)

  const FRESH := Context([], [], map[], 0)

  function MessagesOf(c: Context, category: Category): seq<string> {
    if category.Log? then c.log else c.nbi
  }

  function WithMessages(c: Context, category: Category, messages: seq<string>): Context {
    if category.Log? then c.(log := messages) else c.(nbi := messages)
  }

  function Step(c: Context, op: Op): Reply {
    match op
    case AddMessage(cat, m) => Reply(WithMessages(c, cat, MessagesOf(c, cat) + [m]), Ok, None)
    case NewMessageIterator(cat) =>
      Reply(c.(handles := c.handles[c.next := Iterating(cat, MessagesOf(c, cat))], next := c.next + 1), Ok, None)
    case NextMessage(h) =>
      if h !in c.handles || !c.handles[h].Iterating? then Reply(c, NotExist, None)
      else
        var it := c.handles[h];
        if it.rest == [] then Reply(c.(handles := c.handles - {h}), Ok, None)
        else Reply(c.(handles := c.handles[h := it.(rest := it.rest[1..])]), Ok, Some(it.rest[0]))
    case ClearMessages(cat) =>
      Reply(WithMessages(c, cat, []).(handles :=
              map h | h in c.handles && !(c.handles[h].Iterating? && c.handles[h].category == cat) :: c.handles[h]),
            Ok, None)
    case GetMessages(cat) => Reply(c.(handles := c.handles[c.next := Holding], next := c.next + 1), Ok, None)
    case ReleaseHandle(h) =>
      if h !in c.handles then Reply(c, NotExist, None) else Reply(c.(handles := c.handles - {h}), Ok, None)
  }

  function Run(c: Context, ops: seq<Op>): Context
    decreases |ops|
  {
    if ops == [] then c else Run(Step(c, ops[0]).context, ops[1..])
  }

  ghost predicate Valid(c: Context) {
    forall h <- c.handles :: h < c.next
  }

  // ------------------------------------------------------------------ what a handle gives

  function GivenNow(c: Context, op: Op, h: nat): seq<string> {
    var r := Step(c, op);
    if op == NextMessage(h) && r.message.Some? then [r.message.value] else []
  }

  // The messages nextMessage gave for h.
  function Given(c: Context, ops: seq<Op>, h: nat): seq<string>
    decreases |ops|
  {
    if ops == [] then []
    else GivenNow(c, ops[0], h) + Given(Step(c, ops[0]).context, ops[1..], h)
  }

  predicate Usable(c: Context, h: nat) {
    h in c.handles && c.handles[h].Iterating?
  }

  lemma {:induction false} GoneStaysGone(c: Context, ops: seq<Op>, h: nat)
    requires Valid(c) && h < c.next && h !in c.handles
    ensures h !in Run(c, ops).handles && Given(c, ops, h) == []
    decreases |ops|
  {
    if ops != [] {
      GoneStaysGone(Step(c, ops[0]).context, ops[1..], h);
    }
  }

  lemma {:induction false} OneStepGives(c: Context, op: Op, h: nat)
    requires Valid(c) && Usable(c, h) && h in Step(c, op).context.handles
    ensures var c' := Step(c, op).context;
      && Usable(c', h) && c'.handles[h].category == c.handles[h].category
      && GivenNow(c, op, h) + c'.handles[h].rest == c.handles[h].rest
  {
  }

  // Under any adds, clears, releases and iterations in between: given so far, followed by what it still holds, is
  // what it held.
  lemma {:induction false} GivenAndRest(c: Context, ops: seq<Op>, h: nat)
    requires Valid(c) && Usable(c, h) && Usable(Run(c, ops), h)
    ensures Given(c, ops, h) + Run(c, ops).handles[h].rest == c.handles[h].rest
    ensures Run(c, ops).handles[h].category == c.handles[h].category
    decreases |ops|
  {
    if ops != [] {
      var r := Step(c, ops[0]);
      if h !in r.context.handles {
        GoneStaysGone(r.context, ops[1..], h);
      } else {
        GivenAndRest(r.context, ops[1..], h);
        OneStepGives(c, ops[0], h);
        ConcatAssoc(GivenNow(c, ops[0], h), Given(r.context, ops[1..], h), Run(c, ops).handles[h].rest);
      }
    }
  }

  lemma {:induction false} RunValid(c: Context, ops: seq<Op>)
    requires Valid(c)
    ensures Valid(Run(c, ops))
    decreases |ops|
  {
    if ops != [] {
      RunValid(Step(c, ops[0]).context, ops[1..]);
    }
  }

  // From the creation of an iterator in any run: what it has given and what it holds are the category's messages of
  // that moment.
  lemma {:induction false} IteratorIsSnapshot(before: seq<Op>, category: Category, after: seq<Op>)
    requires var c := Run(FRESH, before); Usable(Run(Step(c, NewMessageIterator(category)).context, after), c.next)
    ensures var c := Run(FRESH, before);
      var start := Step(c, NewMessageIterator(category)).context;
      Given(start, after, c.next) + Run(start, after).handles[c.next].rest == MessagesOf(c, category)
  {
    var c := Run(FRESH, before);
    RunValid(FRESH, before);
    GivenAndRest(Step(c, NewMessageIterator(category)).context, after, c.next);
  }

  lemma {:induction false} GivenConcat(c: Context, a: seq<Op>, b: seq<Op>, h: nat)
    ensures Given(c, a + b, h) == Given(c, a, h) + Given(Run(c, a), b, h)
    decreases |a|
  {
    if a == [] {
      assert a + b == b;
    } else {
      var c' := Step(c, a[0]).context;
      assert (a + b)[1..] == a[1..] + b;
      GivenConcat(c', a[1..], b, h);
      ConcatAssoc(GivenNow(c, a[0], h), Given(c', a[1..], h), Given(Run(c, a), b, h));
    }
  }

  // And an iteration that nextMessage brings to its end has given all of them, and never gives anything again.
  lemma {:induction false} IterationGivesAll(before: seq<Op>, category: Category, after: seq<Op>, more: seq<Op>)
    requires var c := Run(FRESH, before); var last := Run(Step(c, NewMessageIterator(category)).context, after);
      Usable(last, c.next) && Step(last, NextMessage(c.next)).message.None?
    ensures var c := Run(FRESH, before); var start := Step(c, NewMessageIterator(category)).context;
      Given(start, after + ([NextMessage(c.next)] + more), c.next) == MessagesOf(c, category)
  {
    var c := Run(FRESH, before);
    var h := c.next;
    var start := Step(c, NewMessageIterator(category)).context;
    var last := Run(start, after);
    IteratorIsSnapshot(before, category, after);
    RunValid(FRESH, before);
    RunValid(start, after);
    GivenConcat(start, after, [NextMessage(h)] + more, h);
    assert ([NextMessage(h)] + more)[1..] == more;
    GoneStaysGone(Step(last, NextMessage(h)).context, more, h);
  }

  function CountNext(ops: seq<Op>, h: nat): nat {
    if ops == [] then 0 else (if ops[0] == NextMessage(h) then 1 else 0) + CountNext(ops[1..], h)
  }

  lemma {:induction false} UsableAfterOne(c: Context, op: Op, h: nat)
    requires Valid(c) && Usable(c, h)
    ensures var c' := Step(c, op).context; var it := c.handles[h];
      && (h in c'.handles ==> Usable(c', h) && c'.handles[h].category == it.category)
      && (h in c'.handles <==>
            && op != ClearMessages(it.category) && op != ReleaseHandle(h)
            && (op == NextMessage(h) ==> it.rest != []))
      && (h in c'.handles ==> |c'.handles[h].rest| == |it.rest| - if op == NextMessage(h) then 1 else 0)
  {
  }

  // A handle stays usable exactly while its category is not cleared, it is not released, and no more messages are
  // asked for than it had.
  lemma {:induction false} UsableExactlyUntil(c: Context, ops: seq<Op>, h: nat)
    requires Valid(c) && Usable(c, h)
    ensures Usable(Run(c, ops), h) <==>
      && ClearMessages(c.handles[h].category) !in ops && ReleaseHandle(h) !in ops
      && CountNext(ops, h) <= |c.handles[h].rest|
    decreases |ops|
  {
    if ops != [] {
      var c' := Step(c, ops[0]).context;
      UsableAfterOne(c, ops[0], h);
      assert ops == [ops[0]] + ops[1..];
      if h in c'.handles {
        UsableExactlyUntil(c', ops[1..], h);
      } else {
        GoneStaysGone(c', ops[1..], h);
      }
    }
  }

  // What each request is answered: nextMessage answers Ok exactly while the handle is usable, with a message unless the
  // iteration is over, and then the handle is gone; a handle can be released while it is there.
  lemma {:induction false} HandleCodes(c: Context, op: Op)
    ensures var r := Step(c, op);
      match op
      case NextMessage(h) =>
        && r.code == (if Usable(c, h) then Ok else NotExist)
        && (r.message.Some? <==> Usable(c, h) && c.handles[h].rest != [])
        && (Usable(c, h) && r.message.None? ==> h !in r.context.handles)
      case ReleaseHandle(h) =>
        r.code == (if h in c.handles then Ok else NotExist) && r.message.None? && h !in r.context.handles
      case _ => r.code == Ok && r.message.None?
  {
  }

  // The handle of getMessages is not an iterator, and stays until it is released, whatever is added or cleared.
  lemma {:induction false} HoldingStays(c: Context, category: Category, ops: seq<Op>)
    requires Valid(c) && ReleaseHandle(c.next) !in ops
    ensures var d := Run(Step(c, GetMessages(category)).context, ops);
      c.next in d.handles && d.handles[c.next] == Holding
  {
    HeldStays(Step(c, GetMessages(category)).context, ops, c.next);
  }

  lemma {:induction false} HeldStays(c: Context, ops: seq<Op>, h: nat)
    requires Valid(c) && h in c.handles && c.handles[h] == Holding && ReleaseHandle(h) !in ops
    ensures h in Run(c, ops).handles && Run(c, ops).handles[h] == Holding
    decreases |ops|
  {
    if ops != [] {
      assert ops[0] in ops;
      HeldStays(Step(c, ops[0]).context, ops[1..], h);
    }
  }

  // ------------------------------------------------------------------ what a category holds

  // The messages added to the category since it was last cleared, in order.
  function AddedSinceClear(ops: seq<Op>, category: Category): seq<string> {
    if ops == [] then []
    else
      var last := ops[|ops| - 1];
      if last == ClearMessages(category) then []
      else
        AddedSinceClear(ops[..|ops| - 1], category)
        + if last.AddMessage? && last.category == category then [last.message] else []
  }

  lemma {:induction false} RunSnoc(c: Context, ops: seq<Op>, op: Op)
    ensures Run(c, ops + [op]) == Step(Run(c, ops), op).context
    decreases |ops|
  {
    if ops == [] {
      assert ([] + [op])[1..] == [];
    } else {
      assert (ops + [op])[1..] == ops[1..] + [op];
      RunSnoc(Step(c, ops[0]).context, ops[1..], op);
    }
  }

  // Whatever is done with iterators, a category holds what was added since it was cleared; so do the counts, the
  // arrays of getMessages and the iterators made from it.
  lemma {:induction false} CategoryHoldsAdded(ops: seq<Op>, category: Category)
    ensures MessagesOf(Run(FRESH, ops), category) == AddedSinceClear(ops, category)
    decreases |ops|
  {
    if ops != [] {
      var n := |ops| - 1;
      assert ops == ops[..n] + [ops[n]];
      RunSnoc(FRESH, ops[..n], ops[n]);
      CategoryHoldsAdded(ops[..n], category);
      assert AddedSinceClear(ops[..n], category) + [] == AddedSinceClear(ops[..n], category);
    }
  }

  // ------------------------------------------------------------------ the service

  class ThreadContexts {
    var contexts: map<nat, Context>

    // A thread that has not used the service has an empty context.
    function Of(thread: nat): Context
      reads this
    {
      if thread in contexts then contexts[thread] else FRESH
    }

    constructor ()
      ensures forall t :: Of(t) == FRESH
    {
      contexts := map[];
    }

    method Add(thread: nat, category: Category, message: string)
      modifies this
      ensures Of(thread) == Step(old(Of(thread)), AddMessage(category, message)).context
      ensures forall t :: t != thread ==> Of(t) == old(Of(t))
    {
      var c := Of(thread);
      if category.Log? {
        c := c.(log := c.log + [message]);
      } else {
        c := c.(nbi := c.nbi + [message]);
      }
      contexts := contexts[thread := c];
    }

    method NewIterator(thread: nat, category: Category) returns (h: nat)
      modifies this
      ensures Of(thread) == Step(old(Of(thread)), NewMessageIterator(category)).context && h == old(Of(thread)).next
      ensures forall t :: t != thread ==> Of(t) == old(Of(t))
    {
      var c := Of(thread);
      h := c.next;
      contexts := contexts[thread := c.(handles := c.handles[h := Iterating(category, MessagesOf(c, category))],
                                        next := h + 1)];
    }

    method Next(thread: nat, h: nat) returns (rc: ReturnCode, message: Option<string>)
      modifies this
      ensures Reply(Of(thread), rc, message) == Step(old(Of(thread)), NextMessage(h))
      ensures forall t :: t != thread ==> Of(t) == old(Of(t))
    {
      var c := Of(thread);
      message := None;
      if h !in c.handles || !c.handles[h].Iterating? {
        return NotExist, message;
      }
      var rest := c.handles[h].rest;
      if rest == [] {
        c := c.(handles := c.handles - {h});
      } else {
        message := Some(rest[0]);
        c := c.(handles := c.handles[h := c.handles[h].(rest := rest[1..])]);
      }
      contexts := contexts[thread := c];
      rc := Ok;
    }

    // Drop the category's messages and go through the handles, dropping its iterators.
    method Clear(thread: nat, category: Category)
      modifies this
      ensures Of(thread) == Step(old(Of(thread)), ClearMessages(category)).context
      ensures forall t :: t != thread ==> Of(t) == old(Of(t))
    {
      var c := Of(thread);
      var handles := c.handles;
      var todo := handles.Keys;
      while todo != {}
        invariant todo <= c.handles.Keys
        invariant forall h :: h in handles <==>
            h in c.handles && (h !in todo ==> !(c.handles[h].Iterating? && c.handles[h].category == category))
        invariant forall h <- handles :: handles[h] == c.handles[h]
        decreases |todo|
      {
        var h :| h in todo;
        todo := todo - {h};
        if c.handles[h].Iterating? && c.handles[h].category == category {
          handles := handles - {h};
        }
      }
      c := WithMessages(c, category, []).(handles := handles);
      assert c == Step(old(Of(thread)), ClearMessages(category)).context;
      contexts := contexts[thread := c];
    }

    method Count(thread: nat, category: Category) returns (count: nat)
      ensures count == |MessagesOf(Of(thread), category)|
    {
      count := |MessagesOf(Of(thread), category)|;
    }

    method Get(thread: nat, category: Category) returns (h: nat, messages: seq<string>)
      modifies this
      ensures Of(thread) == Step(old(Of(thread)), GetMessages(category)).context && h == old(Of(thread)).next
      ensures messages == old(MessagesOf(Of(thread), category))
      ensures forall t :: t != thread ==> Of(t) == old(Of(t))
    {
      var c := Of(thread);
      h := c.next;
      messages := MessagesOf(c, category);
      contexts := contexts[thread := c.(handles := c.handles[h := Holding], next := h + 1)];
    }

    method Release(thread: nat, h: nat) returns (rc: ReturnCode)
      modifies this
      ensures Reply(Of(thread), rc, None) == Step(old(Of(thread)), ReleaseHandle(h))
      ensures forall t :: t != thread ==> Of(t) == old(Of(t))
    {
      var c := Of(thread);
      rc := if h in c.handles then Ok else NotExist;
      contexts := contexts[thread := c.(handles := c.handles - {h})];
    }
  }
}
