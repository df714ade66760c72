/**
 Replicated lists.  A list keeps the number given to its newest item, a count, and one stored item per
 number; the number is the item's name.  Its meaning is the sequence of stored items in order of number.

 Pushing, erasing, replacing, finding and traversing follow that sequence.  Two operations do so only
 under a condition: pushing until the 32-bit number wraps, and popping only while the newest number is stored.
*/
module ReplicatedLists {
  import opened Common

  const WORD: nat := 0x1_0000_0000

  datatype Item = Item(name: nat, data: int)

  datatype List = List(lastId: nat, count: nat, files: map<nat, int>)

  datatype Op = PushBack(data: int) | PopBack | EraseItem(name: nat) | ReplaceItem(name: nat, data: int) | Clear

  datatype Outcome = Outcome(list: List, code: ReturnCode)

  const NEW := List(0, 0, map[])

  // The stored items numbered lo up to hi.
  function Between(files: map<nat, int>, lo: nat, hi: nat): seq<Item>
    decreases hi + 1 - lo
  {
    if lo > hi then []
    else (if lo in files then [Item(lo, files[lo])] else []) + Between(files, lo + 1, hi)
  }

  function Items(l: List): seq<Item> {
    Between(l.files, 1, l.lastId)
  }

  // The largest stored number at or below n, or zero.
  function NewestUpTo(files: map<nat, int>, n: nat): nat {
    if n == 0 || n in files then n else NewestUpTo(files, n - 1)
  }

  // Step with the platform's ULONG_MAX, which the code compares a 32-bit number against.
  function Step(l: List, op: Op, ulongMax: nat): Outcome {
    match op
    case PushBack(d) =>
      var id := (l.lastId + 1) % WORD;
      if id == ulongMax then Outcome(l, NoResources)
      else Outcome(List(id, (l.count + 1) % WORD, l.files[id := d]), Ok)
    case PopBack =>
      if l.lastId !in l.files then Outcome(l, NotExist)
      else
        var rest := l.files - {l.lastId};
        var newest := if l.lastId == 0 then 0 else NewestUpTo(rest, l.lastId - 1);
        Outcome(List(newest, (l.count + WORD - 1) % WORD, rest), Ok)
    case EraseItem(n) =>
      if n !in l.files then Outcome(l, NotExist)
      else Outcome(List(l.lastId, (l.count + WORD - 1) % WORD, l.files - {n}), Ok)
    case ReplaceItem(n, d) =>
      if n !in l.files then Outcome(l, NotExist) else Outcome(l.(files := l.files[n := d]), Ok)
    case Clear => Outcome(List(l.lastId, 0, map[]), Ok)
  }

  ghost predicate Consistent(l: List) {
    l.lastId < WORD && l.count == |l.files| && (forall n <- l.files :: 1 <= n <= l.lastId) && l.count <= l.lastId
  }

  // ------------------------------------------------------------------ the sequence of items

  lemma {:induction false} BetweenHas(files: map<nat, int>, lo: nat, hi: nat, x: Item)
    ensures x in Between(files, lo, hi) <==> lo <= x.name <= hi && x.name in files && files[x.name] == x.data
    decreases hi + 1 - lo
  {
    if lo <= hi {
      BetweenHas(files, lo + 1, hi, x);
    }
  }

  lemma {:induction false} BetweenSplit(files: map<nat, int>, lo: nat, mid: nat, hi: nat)
    requires lo <= mid <= hi + 1
    ensures Between(files, lo, hi) == (if mid == 0 then [] else Between(files, lo, mid - 1)) + Between(files, mid, hi)
    decreases mid - lo
  {
    if lo < mid {
      BetweenSplit(files, lo + 1, mid, hi);
      ConcatAssoc(if lo in files then [Item(lo, files[lo])] else [], Between(files, lo + 1, mid - 1),
                  Between(files, mid, hi));
    } else {
      assert Between(files, lo, hi) == [] + Between(files, mid, hi);
    }
  }

  lemma {:induction false} BetweenSame(f: map<nat, int>, g: map<nat, int>, lo: nat, hi: nat)
    requires forall n :: lo <= n <= hi ==> ((n in f <==> n in g) && (n in f ==> f[n] == g[n]))
    ensures Between(f, lo, hi) == Between(g, lo, hi)
    decreases hi + 1 - lo
  {
    if lo <= hi {
      BetweenSame(f, g, lo + 1, hi);
    }
  }

  // In order of name, all of them from lo to hi.
  ghost predicate Ascending(s: seq<Item>, lo: nat, hi: nat) {
    && (forall x :: x in s ==> lo <= x.name <= hi)
    && (forall i, j :: 0 <= i < j < |s| ==> s[i].name < s[j].name)
  }

  lemma {:induction false} BetweenAscends(files: map<nat, int>, lo: nat, hi: nat)
    ensures Ascending(Between(files, lo, hi), lo, hi)
    decreases hi + 1 - lo
  {
    if lo <= hi {
      BetweenAscends(files, lo + 1, hi);
      var rest := Between(files, lo + 1, hi);
      if lo in files {
        AscendingCons(Item(lo, files[lo]), rest, hi);
      } else {
        assert [] + rest == rest;
      }
    }
  }

  lemma {:induction false} AscendingCons(x: Item, rest: seq<Item>, hi: nat)
    requires x.name <= hi && Ascending(rest, x.name + 1, hi)
    ensures Ascending([x] + rest, x.name, hi)
  {
    var s := [x] + rest;
    forall i, j | 0 <= i < j < |s| ensures s[i].name < s[j].name {
      assert s[j] == rest[j - 1] && rest[j - 1] in rest;
      assert i > 0 ==> s[i] == rest[i - 1];
    }
  }

  lemma {:induction false} NothingBetween(files: map<nat, int>, lo: nat, hi: nat)
    requires forall n :: lo <= n <= hi ==> n !in files
    ensures Between(files, lo, hi) == []
    decreases hi + 1 - lo
  {
    if lo <= hi {
      NothingBetween(files, lo + 1, hi);
    }
  }

  lemma {:induction false} NewestIs(files: map<nat, int>, n: nat)
    ensures var m := NewestUpTo(files, n); m <= n && (m in files || m == 0) && forall k :: m < k <= n ==> k !in files
  {
    if n != 0 && n !in files {
      NewestIs(files, n - 1);
    }
  }

  function NamesOf(s: seq<Item>): set<nat> {
    set x | x in s :: x.name
  }

  // A finite set of numbers from 1 to n has at most n members.
  lemma {:induction false} NumbersBounded(s: set<nat>, n: nat)
    requires forall x <- s :: 1 <= x <= n
    ensures |s| <= n
  {
    if n == 0 {
      assert s == {};
    } else {
      NumbersBounded(s - {n}, n - 1);
      if n in s {
        assert s == (s - {n}) + {n};
      } else {
        assert s - {n} == s;
      }
    }
  }

  // The list's items are as many as it counts, with different names, in order of name.
  lemma {:induction false} ItemsMeasure(l: List)
    requires Consistent(l)
    ensures |Items(l)| == l.count
    ensures forall i, j :: 0 <= i < j < |Items(l)| ==> Items(l)[i].name < Items(l)[j].name
  {
    var s := Items(l);
    BetweenAscends(l.files, 1, l.lastId);
    forall n ensures n in NamesOf(s) <==> n in l.files {
      if n in l.files {
        BetweenHas(l.files, 1, l.lastId, Item(n, l.files[n]));
        assert Item(n, l.files[n]).name in NamesOf(s);
      }
      forall x | x in s ensures x.name in l.files {
        BetweenHas(l.files, 1, l.lastId, x);
      }
    }
    assert NamesOf(s) == l.files.Keys;
    DistinctNames(s);
    assert |l.files.Keys| == |l.files|;
  }

  lemma {:induction false} DistinctNames(s: seq<Item>)
    requires forall i, j :: 0 <= i < j < |s| ==> s[i].name < s[j].name
    ensures |NamesOf(s)| == |s|
  {
    if s == [] {
      assert NamesOf(s) == {};
    } else {
      var t := s[..|s| - 1];
      DistinctNames(t);
      var n := s[|s| - 1].name;
      assert n !in NamesOf(t);
      assert s == t + [s[|s| - 1]];
      assert NamesOf(s) == NamesOf(t) + {n};
    }
  }

  // ------------------------------------------------------------------ each operation on the sequence

  function WithoutName(s: seq<Item>, n: nat): seq<Item> {
    if s == [] then [] else (if s[0].name == n then [] else [s[0]]) + WithoutName(s[1..], n)
  }

  function WithData(s: seq<Item>, n: nat, d: int): seq<Item> {
    seq(|s|, i requires 0 <= i < |s| => if s[i].name == n then Item(n, d) else s[i])
  }

  // Pushing appends one item with a new name, if and only if the number does not wrap.
  lemma {:induction false} PushAppends(l: List, d: int, ulongMax: nat)
    requires Consistent(l) && (l.lastId + 1) % WORD != ulongMax
    ensures var after := Step(l, PushBack(d), ulongMax).list;
      (Items(after) == Items(l) + [Item(l.lastId + 1, d)]) <==> l.lastId + 1 < WORD
  {
    var after := Step(l, PushBack(d), ulongMax).list;
    if l.lastId + 1 < WORD {
      var id := l.lastId + 1;
      BetweenSplit(after.files, 1, id, id);
      assert Between(after.files, id, id) == [Item(id, d)] + Between(after.files, id + 1, id);
      BetweenSame(after.files, l.files, 1, l.lastId);
    } else {
      assert after.lastId == 0;
    }
  }

  // At the wrap every item disappears from the list's traversal.
  lemma {:induction false} PushAtTheWrapLosesAll(l: List, d: int, ulongMax: nat)
    requires Consistent(l) && l.lastId + 1 == WORD && ulongMax != 0
    ensures var r := Step(l, PushBack(d), ulongMax); r.code == Ok && Items(r.list) == []
  {
  }

  // Popping removes the last item, if and only if the newest number is still stored; otherwise it reports NotExist and
  // changes nothing.
  lemma {:induction false} PopRemovesLast(l: List, ulongMax: nat)
    requires Consistent(l) && Items(l) != []
    ensures var r := Step(l, PopBack, ulongMax); var s := Items(l);
      && (r.code == Ok && Items(r.list) == s[..|s| - 1] <==> l.lastId in l.files)
      && (l.lastId !in l.files ==> r == Outcome(l, NotExist))
      && (l.lastId in l.files ==> r.list.lastId in r.list.files || Items(r.list) == [])
  {
    var r := Step(l, PopBack, ulongMax);
    if l.lastId in l.files {
      var n := l.lastId;
      var m := r.list.lastId;
      NewestIs(r.list.files, n - 1);
      BetweenSplit(l.files, 1, n, n);
      assert Between(l.files, n, n) == [Item(n, l.files[n])] + Between(l.files, n + 1, n);
      BetweenSame(l.files, r.list.files, 1, n - 1);
      BetweenSplit(r.list.files, 1, m + 1, n - 1);
      NothingBetween(r.list.files, m + 1, n - 1);
      assert Items(l) == Items(r.list) + [Item(n, l.files[n])];
    }
  }

  // Nothing is popped from a list without items.
  lemma {:induction false} PopOfNothing(l: List, ulongMax: nat)
    requires Consistent(l) && Items(l) == []
    ensures Step(l, PopBack, ulongMax) == Outcome(l, NotExist)
  {
    if l.lastId in l.files {
      BetweenHas(l.files, 1, l.lastId, Item(l.lastId, l.files[l.lastId]));
    }
  }

  function Pops(k: nat): seq<Op> {
    seq(k, _ => PopBack)
  }

  // Once a pop works, pops take away one item each from the end until none is left.
  lemma {:induction false} PopsUntilEmpty(l: List, k: nat, ulongMax: nat)
    requires Consistent(l) && k <= |Items(l)| && (l.lastId in l.files || Items(l) == [])
    ensures Items(Run(l, Pops(k), ulongMax)) == Items(l)[..|Items(l)| - k]
    decreases k
  {
    if k > 0 {
      var r := Step(l, PopBack, ulongMax);
      PopRemovesLast(l, ulongMax);
      StepKeeps(l, PopBack, ulongMax);
      PopsUntilEmpty(r.list, k - 1, ulongMax);
      assert Pops(k)[0] == PopBack && Pops(k)[1..] == Pops(k - 1);
    } else {
      assert Items(l)[..|Items(l)|] == Items(l);
    }
  }

  // Erasing the newest item leaves a list that cannot be popped.
  lemma {:induction false} EraseOfTheNewestBlocksPop(a: int, b: int, ulongMax: nat)
    requires ulongMax >= WORD - 1
    ensures var one := Step(NEW, PushBack(a), ulongMax).list;
      var two := Step(one, PushBack(b), ulongMax).list;
      var l := Step(two, EraseItem(2), ulongMax).list;
      Items(l) == [Item(1, a)] && Step(l, PopBack, ulongMax) == Outcome(l, NotExist)
  {
    var l := List(2, 1, map[1 := a, 2 := b] - {2});
    assert map[][1 := a][2 := b] == map[1 := a, 2 := b];
    assert Between(l.files, 3, 2) == [];
    assert Between(l.files, 2, 2) == [];
    assert Between(l.files, 1, 2) == [Item(1, a)];
  }

  lemma {:induction false} BetweenErase(files: map<nat, int>, n: nat, lo: nat, hi: nat)
    ensures Between(files - {n}, lo, hi) == WithoutName(Between(files, lo, hi), n)
    decreases hi + 1 - lo
  {
    if lo <= hi {
      BetweenErase(files, n, lo + 1, hi);
      var rest := Between(files, lo + 1, hi);
      if lo in files {
        assert ([Item(lo, files[lo])] + rest)[1..] == rest;
        assert [] + WithoutName(rest, n) == WithoutName(rest, n);
      } else {
        assert [] + rest == rest;
      }
    }
  }

  lemma {:induction false} EraseRemovesOne(l: List, n: nat, ulongMax: nat)
    requires Consistent(l)
    ensures var r := Step(l, EraseItem(n), ulongMax);
      && Items(r.list) == WithoutName(Items(l), n)
      && (forall x :: x in Items(r.list) <==> x in Items(l) && x.name != n)
      && (r.code == Ok <==> n in NamesOf(Items(l))) && (r.code != Ok ==> r == Outcome(l, NotExist))
  {
    BetweenErase(l.files, n, 1, l.lastId);
    FindIsMembership(l, n);
    WithoutNameIs(Items(l), n);
    if n !in l.files {
      assert l.files - {n} == l.files;
    }
  }

  lemma {:induction false} WithoutNameIs(s: seq<Item>, n: nat)
    ensures forall x :: x in WithoutName(s, n) <==> x in s && x.name != n
  {
    if s != [] {
      WithoutNameIs(s[1..], n);
      assert s == [s[0]] + s[1..];
    }
  }

  lemma {:induction false} ReplaceKeepsPlace(l: List, n: nat, d: int, ulongMax: nat)
    requires Consistent(l)
    ensures var r := Step(l, ReplaceItem(n, d), ulongMax);
      && |Items(r.list)| == |Items(l)|
      && (forall i :: 0 <= i < |Items(l)| ==>
            Items(r.list)[i] == if Items(l)[i].name == n then Item(n, d) else Items(l)[i])
      && (r.code == Ok <==> n in NamesOf(Items(l))) && (r.code != Ok ==> r == Outcome(l, NotExist))
  {
    FindIsMembership(l, n);
    if n in l.files {
      BetweenReplace(l.files, n, d, 1, l.lastId);
    } else {
      var s := Items(l);
      forall i | 0 <= i < |s| ensures s[i].name != n {
        BetweenHas(l.files, 1, l.lastId, s[i]);
      }
      assert WithData(s, n, d) == s;
    }
  }

  lemma {:induction false} BetweenReplace(files: map<nat, int>, n: nat, d: int, lo: nat, hi: nat)
    requires n in files
    ensures Between(files[n := d], lo, hi) == WithData(Between(files, lo, hi), n, d)
    decreases hi + 1 - lo
  {
    if lo <= hi {
      BetweenReplace(files, n, d, lo + 1, hi);
      var first := if lo in files then [Item(lo, files[lo])] else [];
      assert WithData(first + Between(files, lo + 1, hi), n, d)
          == WithData(first, n, d) + WithData(Between(files, lo + 1, hi), n, d);
    }
  }

  // Clearing leaves no item, and a number from which the next item is named anew.
  lemma {:induction false} ClearEmpties(l: List, ulongMax: nat)
    ensures var r := Step(l, Clear, ulongMax);
      r.code == Ok && Items(r.list) == [] && r.list.count == 0 && r.list.lastId == l.lastId
  {
    NothingBetween(map[], 1, l.lastId);
  }

  // Finding by name agrees with what a traversal would come across.
  lemma {:induction false} FindIsMembership(l: List, n: nat)
    requires Consistent(l)
    ensures n in l.files <==> n in NamesOf(Items(l))
    ensures forall x :: x in Items(l) && x.name == n ==> n in l.files && l.files[n] == x.data
  {
    forall x ensures x in Items(l) <==> 1 <= x.name <= l.lastId && x.name in l.files && l.files[x.name] == x.data {
      BetweenHas(l.files, 1, l.lastId, x);
    }
    if n in l.files {
      assert Item(n, l.files[n]) in Items(l);
    }
  }

  // ------------------------------------------------------------------ every run

  function Run(l: List, ops: seq<Op>, ulongMax: nat): List
    decreases |ops|
  {
    if ops == [] then l else Run(Step(l, ops[0], ulongMax).list, ops[1..], ulongMax)
  }

  lemma {:induction false} OneFewer(before: map<nat, int>, n: nat)
    requires n in before && |before| < WORD
    ensures (|before| + WORD - 1) % WORD == |before - {n}|
  {
    assert before.Keys == (before - {n}).Keys + {n};
    assert |before.Keys| == |before| && |(before - {n}).Keys| == |before - {n}|;
  }

  lemma {:induction false} PopKeeps(l: List, ulongMax: nat)
    requires Consistent(l) && l.lastId in l.files
    ensures var after := Step(l, PopBack, ulongMax).list; Consistent(after) && after.lastId <= l.lastId
  {
    var rest := l.files - {l.lastId};
    NewestIs(rest, l.lastId - 1);
    OneFewer(l.files, l.lastId);
    NumbersBounded(rest.Keys, NewestUpTo(rest, l.lastId - 1));
    assert |rest.Keys| == |rest|;
  }

  lemma {:induction false} PushKeeps(l: List, d: int, ulongMax: nat)
    requires Consistent(l) && l.lastId + 1 < WORD
    ensures var after := Step(l, PushBack(d), ulongMax).list; Consistent(after) && after.lastId <= l.lastId + 1
  {
    var id := l.lastId + 1;
    assert id !in l.files && |l.files[id := d]| == |l.files| + 1;
  }

  lemma {:induction false} SameSize(files: map<nat, int>, n: nat, d: int)
    requires n in files
    ensures |files[n := d]| == |files|
  {
    assert files[n := d].Keys == files.Keys;
    assert |files[n := d].Keys| == |files[n := d]| && |files.Keys| == |files|;
  }

  lemma {:induction false} StepKeeps(l: List, op: Op, ulongMax: nat)
    requires Consistent(l) && (op.PushBack? ==> l.lastId + 1 < WORD)
    ensures Consistent(Step(l, op, ulongMax).list)
    ensures Step(l, op, ulongMax).list.lastId <= l.lastId + if op.PushBack? then 1 else 0
  {
    match op {
      case PushBack(d) => PushKeeps(l, d, ulongMax);
      case PopBack =>
        if l.lastId in l.files {
          PopKeeps(l, ulongMax);
        }
      case EraseItem(n) =>
        if n in l.files {
          OneFewer(l.files, n);
        }
      case ReplaceItem(n, d) =>
        if n in l.files {
          SameSize(l.files, n, d);
        }
      case Clear =>
    }
  }

  // No push in the run meets a list whose newest number is the largest 32-bit number.
  ghost predicate NeverWraps(l: List, ops: seq<Op>, ulongMax: nat)
    decreases |ops|
  {
    ops == [] ||
    ((ops[0].PushBack? ==> l.lastId + 1 < WORD) && NeverWraps(Step(l, ops[0], ulongMax).list, ops[1..], ulongMax))
  }

  lemma {:induction false} EveryRunConsistent(l: List, ops: seq<Op>, ulongMax: nat)
    requires Consistent(l) && NeverWraps(l, ops, ulongMax)
    ensures Consistent(Run(l, ops, ulongMax))
    decreases |ops|
  {
    if ops != [] {
      StepKeeps(l, ops[0], ulongMax);
      EveryRunConsistent(Step(l, ops[0], ulongMax).list, ops[1..], ulongMax);
    }
  }

  // However a list is used, as long as no push wraps: its size is the number of its items, and their names differ.
  lemma {:induction false} NamesStayUnique(ops: seq<Op>, ulongMax: nat)
    requires NeverWraps(NEW, ops, ulongMax)
    ensures var s := Items(Run(NEW, ops, ulongMax));
      |s| == Run(NEW, ops, ulongMax).count && forall i, j :: 0 <= i < j < |s| ==> s[i].name < s[j].name
  {
    EveryRunConsistent(NEW, ops, ulongMax);
    ItemsMeasure(Run(NEW, ops, ulongMax));
  }

  // Every push of the run that answers Ok appends its item.
  ghost predicate EveryPushAppends(l: List, ops: seq<Op>, ulongMax: nat)
    decreases |ops|
  {
    ops == [] ||
    ((ops[0].PushBack? && Step(l, ops[0], ulongMax).code == Ok ==>
        Items(Step(l, ops[0], ulongMax).list) == Items(l) + [Item(l.lastId + 1, ops[0].data)])
     && EveryPushAppends(Step(l, ops[0], ulongMax).list, ops[1..], ulongMax))
  }

  // However a list is used, the pushes do what they should if and only if none wraps.
  lemma {:induction false} EveryPushAppendsIff(l: List, ops: seq<Op>, ulongMax: nat)
    requires Consistent(l) && ulongMax > 0
    ensures EveryPushAppends(l, ops, ulongMax) <==> NeverWraps(l, ops, ulongMax)
    decreases |ops|
  {
    if ops != [] {
      if ops[0].PushBack? && Step(l, ops[0], ulongMax).code == Ok {
        PushAppends(l, ops[0].data, ulongMax);
      }
      if ops[0].PushBack? ==> l.lastId + 1 < WORD {
        StepKeeps(l, ops[0], ulongMax);
        EveryPushAppendsIff(Step(l, ops[0], ulongMax).list, ops[1..], ulongMax);
      }
    }
  }

  // Where ULONG_MAX is the largest 32-bit number the limit works: no run ever wraps.
  lemma {:induction false} LimitStopsTheWrap(l: List, ops: seq<Op>)
    requires Consistent(l) && l.lastId + 1 < WORD
    ensures NeverWraps(l, ops, WORD - 1)
    decreases |ops|
  {
    if ops != [] {
      StepKeeps(l, ops[0], WORD - 1);
      LimitStopsTheWrap(Step(l, ops[0], WORD - 1).list, ops[1..]);
    }
  }

  function Pushes(ops: seq<Op>): nat {
    if ops == [] then 0 else (if ops[0].PushBack? then 1 else 0) + Pushes(ops[1..])
  }

  // Elsewhere, fewer than 2^32 pushes never do.
  lemma {:induction false} FewPushesNeverWrap(l: List, ops: seq<Op>, ulongMax: nat)
    requires Consistent(l) && l.lastId + Pushes(ops) < WORD
    ensures NeverWraps(l, ops, ulongMax)
    decreases |ops|
  {
    if ops != [] {
      StepKeeps(l, ops[0], ulongMax);
      FewPushesNeverWrap(Step(l, ops[0], ulongMax).list, ops[1..], ulongMax);
    }
  }

  // Pushing n items, whatever they are.
  function AllPushed(data: seq<int>): seq<Op> {
    seq(|data|, i requires 0 <= i < |data| => PushBack(data[i]))
  }

  lemma {:induction false} RunSnoc(l: List, ops: seq<Op>, op: Op, ulongMax: nat)
    ensures Run(l, ops + [op], ulongMax) == Step(Run(l, ops, ulongMax), op, ulongMax).list
    decreases |ops|
  {
    if ops == [] {
      assert ([] + [op])[1..] == [];
    } else {
      assert (ops + [op])[1..] == ops[1..] + [op];
      RunSnoc(Step(l, ops[0], ulongMax).list, ops[1..], op, ulongMax);
    }
  }

  // As long as they are fewer than 2^32, all of them are in the list.
  lemma {:induction false} PushesCount(data: seq<int>, ulongMax: nat)
    requires |data| < WORD && ulongMax >= WORD
    ensures var l := Run(NEW, AllPushed(data), ulongMax); Consistent(l) && l.lastId == |data| && |Items(l)| == |data|
    decreases |data|
  {
    if data == [] {
      assert Items(NEW) == [];
    } else {
      var n := |data| - 1;
      assert AllPushed(data) == AllPushed(data[..n]) + [PushBack(data[n])];
      RunSnoc(NEW, AllPushed(data[..n]), PushBack(data[n]), ulongMax);
      PushesCount(data[..n], ulongMax);
      var l := Run(NEW, AllPushed(data[..n]), ulongMax);
      PushKeeps(l, data[n], ulongMax);
      PushAppends(l, data[n], ulongMax);
    }
  }

  // Pushing 2^32 items to a new list where ULONG_MAX is wider than 32 bits: the last push answers Ok, its item is
  // named 0, and not one of the 2^32 items can be traversed any more.
  lemma {:induction false} WrapIsReached(data: seq<int>, ulongMax: nat)
    requires |data| == WORD && ulongMax >= WORD
    ensures var before := Run(NEW, AllPushed(data[..WORD - 1]), ulongMax);
      var r := Step(before, PushBack(data[WORD - 1]), ulongMax);
      && |Items(before)| == WORD - 1
      && r.code == Ok && r.list.lastId == 0 && Items(r.list) == []
      && Run(NEW, AllPushed(data), ulongMax) == r.list
  {
    var n := WORD - 1;
    PushesCount(data[..n], ulongMax);
    PushAtTheWrapLosesAll(Run(NEW, AllPushed(data[..n]), ulongMax), data[n], ulongMax);
    assert AllPushed(data) == AllPushed(data[..n]) + [PushBack(data[n])];
    RunSnoc(NEW, AllPushed(data[..n]), PushBack(data[n]), ulongMax);
  }

  // ------------------------------------------------------------------ the lists as they are kept

  datatype Cursor = Cursor(index: nat, id: nat)

  lemma {:induction false} AppendNext<T>(all: seq<T>, i: nat)
    requires i < |all|
    ensures all[..i] + [all[i]] == all[..i + 1]
    ensures i + 1 == |all| ==> all[..i + 1] == all
  {
  }

  class ListStore {
    const ulongMax: nat
    var lists: map<string, List>

    ghost predicate Valid()
      reads this
    {
      forall n <- lists :: Consistent(lists[n])
    }

    constructor (ulongMax: nat)
      ensures Valid() && lists == map[] && this.ulongMax == ulongMax
    {
      this.ulongMax := ulongMax;
      lists := map[];
    }

    method ListCreate(name: string) returns (rc: ReturnCode)
      requires Valid()
      modifies this
      ensures Valid()
      ensures rc == (if name in old(lists) then AlreadyExist else Ok)
      ensures lists == if rc == Ok then old(lists)[name := NEW] else old(lists)
    {
      if name in lists {
        return AlreadyExist;
      }
      lists := lists[name := NEW];
      rc := Ok;
    }

    method ListDelete(name: string) returns (rc: ReturnCode)
      requires Valid()
      modifies this
      ensures Valid()
      ensures rc == (if name in old(lists) then Ok else NotExist) && lists == old(lists) - {name}
    {
      rc := if name in lists then Ok else NotExist;
      lists := lists - {name};
    }

    method ListPushBack(name: string, data: int) returns (rc: ReturnCode, item: nat)
      requires Valid()
      modifies this
      ensures (name in old(lists) && old(lists)[name].lastId + 1 == WORD) || Valid()
      ensures name !in old(lists) ==> rc == NotExist && lists == old(lists)
      ensures name in old(lists) ==>
                var r := Step(old(lists)[name], PushBack(data), ulongMax);
                rc == r.code && lists == old(lists)[name := r.list] && (rc == Ok ==> item == r.list.lastId)
    {
      item := 0;
      if name !in lists {
        return NotExist, item;
      }
      var l := lists[name];
      if l.lastId + 1 < WORD {
        StepKeeps(l, PushBack(data), ulongMax);
      }
      item := (l.lastId + 1) % WORD;
      if item == ulongMax {
        rc := NoResources;
        return;
      }
      lists := lists[name := List(item, (l.count + 1) % WORD, l.files[item := data])];
      rc := Ok;
    }

    method ListPopBack(name: string) returns (rc: ReturnCode)
      requires Valid()
      modifies this
      ensures Valid()
      ensures name !in old(lists) ==> rc == NotExist && lists == old(lists)
      ensures name in old(lists) ==>
                var r := Step(old(lists)[name], PopBack, ulongMax);
                rc == r.code && lists == old(lists)[name := r.list]
    {
      if name !in lists {
        return NotExist;
      }
      var l := lists[name];
      StepKeeps(l, PopBack, ulongMax);
      if l.lastId !in l.files {
        rc := NotExist;
        return;
      }
      var files := l.files - {l.lastId};
      var lastId: nat := l.lastId;
      var found := false;
      while !found && lastId > 0
        invariant lastId <= l.lastId && (found ==> lastId in files)
        invariant found || lastId == 0 ==> lastId == if l.lastId == 0 then 0 else NewestUpTo(files, l.lastId - 1)
        invariant !found && lastId > 0 ==> NewestUpTo(files, lastId - 1) == NewestUpTo(files, l.lastId - 1)
        decreases lastId, !found
      {
        lastId := lastId - 1;
        found := lastId in files;
      }
      lists := lists[name := List(lastId, (l.count + WORD - 1) % WORD, files)];
      rc := Ok;
    }

    method ListEraseItem(name: string, item: nat) returns (rc: ReturnCode)
      requires Valid()
      modifies this
      ensures Valid()
      ensures name !in old(lists) ==> rc == NotExist && lists == old(lists)
      ensures name in old(lists) ==>
                var r := Step(old(lists)[name], EraseItem(item), ulongMax);
                rc == r.code && lists == old(lists)[name := r.list]
    {
      if name !in lists || item !in lists[name].files {
        return NotExist;
      }
      var l := lists[name];
      StepKeeps(l, EraseItem(item), ulongMax);
      lists := lists[name := List(l.lastId, (l.count + WORD - 1) % WORD, l.files - {item})];
      rc := Ok;
    }

    method ListReplaceItem(name: string, item: nat, data: int) returns (rc: ReturnCode)
      requires Valid()
      modifies this
      ensures Valid()
      ensures name !in old(lists) ==> rc == NotExist && lists == old(lists)
      ensures name in old(lists) ==>
                var r := Step(old(lists)[name], ReplaceItem(item, data), ulongMax);
                rc == r.code && lists == old(lists)[name := r.list]
    {
      if name !in lists || item !in lists[name].files {
        return NotExist;
      }
      var l := lists[name];
      StepKeeps(l, ReplaceItem(item, data), ulongMax);
      lists := lists[name := l.(files := l.files[item := data])];
      rc := Ok;
    }

    // The newest number is not reset.
    method ListClear(name: string) returns (rc: ReturnCode)
      requires Valid()
      modifies this
      ensures Valid()
      ensures name !in old(lists) ==> rc == NotExist && lists == old(lists)
      ensures name in old(lists) ==>
                rc == Ok && lists == old(lists)[name := Step(old(lists)[name], Clear, ulongMax).list]
    {
      if name !in lists {
        return NotExist;
      }
      lists := lists[name := List(lists[name].lastId, 0, map[])];
      rc := Ok;
    }

    method ListGetSize(name: string) returns (rc: ReturnCode, size: nat)
      requires Valid()
      ensures rc == (if name in lists then Ok else NotExist)
      ensures rc == Ok ==> size == |Items(lists[name])|
    {
      rc, size := NotExist, 0;
      if name in lists {
        ItemsMeasure(lists[name]);
        rc, size := Ok, lists[name].count;
      }
    }

    method ListFindItem(name: string, item: nat) returns (rc: ReturnCode, data: int)
      requires Valid()
      ensures rc == Ok <==> name in lists && item in NamesOf(Items(lists[name]))
      ensures rc == Ok ==> Item(item, data) in Items(lists[name])
      ensures rc != Ok ==> rc == NotExist
    {
      rc, data := NotExist, 0;
      if name in lists {
        FindIsMembership(lists[name], item);
        if item in lists[name].files {
          rc, data := Ok, lists[name].files[item];
          BetweenHas(lists[name].files, 1, lists[name].lastId, Item(item, data));
        }
      }
    }

    // Scan the numbers upward for the next stored item.
    static method FindNext(l: List, from: nat) returns (found: bool, id: nat)
      requires Consistent(l) && from >= 1
      ensures found <==> exists n :: from <= n && n in l.files
      ensures found ==> from <= id <= l.lastId && id in l.files && forall n :: from <= n < id ==> n !in l.files
    {
      id := from;
      while id <= l.lastId
        invariant from <= id && forall n :: from <= n < id ==> n !in l.files
        decreases l.lastId + 1 - id
      {
        if id in l.files {
          found := true;
          return;
        }
        id := id + 1;
      }
      found := false;
    }

    // Where a cursor stands in the sequence of items.
    static ghost predicate Stands(l: List, c: Cursor) {
      c.id >= 1 && c.index < |Items(l)| && Between(l.files, c.id, l.lastId) == Items(l)[c.index..]
    }

    // One step of a traversal that nothing disturbs; at the end the cursor is gone.
    static method NextItem(l: List, c: Cursor) returns (item: Item, next: Option<Cursor>)
      requires Consistent(l) && Stands(l, c)
      ensures item == Items(l)[c.index]
      ensures next.None? <==> c.index + 1 == |Items(l)|
      ensures next.Some? ==> next.value.index == c.index + 1 && Stands(l, next.value)
    {
      ItemsMeasure(l);
      ghost var rest := Items(l)[c.index..];
      BetweenHas(l.files, c.id, l.lastId, rest[0]);
      var found, id := FindNext(l, c.id);
      BetweenSplit(l.files, c.id, id, l.lastId);
      NothingBetween(l.files, c.id, id - 1);
      assert rest == [Item(id, l.files[id])] + Between(l.files, id + 1, l.lastId);
      assert rest[1..] == Items(l)[c.index + 1..];
      item := Item(id, l.files[id]);
      next := if c.index + 1 >= l.count then None else Some(Cursor(c.index + 1, id + 1));
    }

    // Front to back, an undisturbed traversal gives every item once, in order of insertion.
    method Traverse(name: string) returns (rc: ReturnCode, items: seq<Item>)
      requires Valid()
      ensures rc == (if name in lists then Ok else NotExist)
      ensures rc == Ok ==> items == Items(lists[name])
    {
      items := [];
      if name !in lists {
        return NotExist, items;
      }
      var l := lists[name];
      ItemsMeasure(l);
      ghost var all := Items(l);
      var cursor := if l.count == 0 then None else Some(Cursor(0, 1));
      while cursor.Some?
        invariant cursor.Some? ==> Stands(l, cursor.value) && items == all[..cursor.value.index]
        invariant cursor.None? ==> items == all
        decreases if cursor.Some? then |all| - cursor.value.index else 0
      {
        var item;
        ghost var i := cursor.value.index;
        item, cursor := NextItem(l, cursor.value);
        AppendNext(all, i);
        items := items + [item];
      }
      rc := Ok;
    }
  }
}
