/** Return codes and small sequence facts shared by the services. */
module Common {

  // The codes every interface answers with; only Ok means success.
  datatype ReturnCode =
    | Ok
    | NotActive
    | Failure
    | NotExist
    | AlreadyExist
    | ObjectLocked
    | PrepareFailed
    | CommitFailed
    | InvalidArgument
    | ValidationFailed
    | NoResources
    | TimeOut

  datatype LockPolicy = LockWrite | LockReadWrite

  datatype Option<+T> = None | Some(value: T)

  ghost predicate NoDup<T>(s: seq<T>) {
    forall i, j :: 0 <= i < j < |s| ==> s[i] != s[j]
  }

  lemma {:induction false} NoDupTail<T>(s: seq<T>)
    requires |s| > 0 && NoDup(s)
    ensures NoDup(s[1..]) && s[0] !in s[1..]
  {
  }

  lemma {:induction false} UpdateThenRemove<K, V>(m: map<K, V>, k: K, v: V)
    ensures m[k := v] - {k} == m - {k}
    ensures k !in m ==> m - {k} == m
  {
  }

  lemma {:induction false} MoveHead<T>(a: seq<T>, b: seq<T>, all: seq<T>)
    requires a + b == all && b != []
    ensures (a + [b[0]]) + b[1..] == all && b[0] in all
  {
  }

  lemma {:induction false} ConcatAssoc<T>(a: seq<T>, b: seq<T>, c: seq<T>)
    ensures a + (b + c) == (a + b) + c
  {
  }

  // Two prefixes of one sequence are comparable.
  lemma {:induction false} PrefixesCompare<T>(x: seq<T>, y: seq<T>, d: seq<T>)
    requires x <= d && y <= d
    ensures x < y || y < x || x == y
  {
    assert x == d[..|x|] && y == d[..|y|];
  }

  lemma {:induction false} NoDupConcat<T>(a: seq<T>, b: seq<T>)
    requires NoDup(a) && NoDup(b) && forall x :: x in a ==> x !in b
    ensures NoDup(a + b)
  {
    forall i, j | 0 <= i < j < |a + b| ensures (a + b)[i] != (a + b)[j] {
      assert i < |a| ==> a[i] in a;
      assert j >= |a| ==> b[j - |a|] in b;
    }
  }

  function Without<T(==)>(s: seq<T>, x: T): seq<T> {
    if s == [] then [] else (if s[0] == x then [] else [s[0]]) + Without(s[1..], x)
  }

  lemma {:induction false} WithoutIs<T>(s: seq<T>, x: T)
    requires NoDup(s)
    ensures NoDup(Without(s, x)) && forall y :: y in Without(s, x) <==> y in s && y != x
  {
    if s != [] {
      NoDupTail(s);
      WithoutIs(s[1..], x);
    }
  }

  method DropAll<T(==)>(s: seq<T>, x: T) returns (kept: seq<T>)
    ensures kept == Without(s, x)
  {
    kept := [];
    for i := 0 to |s|
      invariant kept + Without(s[i..], x) == Without(s, x)
    {
      assert s[i..][1..] == s[i + 1..];
      var one := if s[i] == x then [] else [s[i]];
      ConcatAssoc(kept, one, Without(s[i + 1..], x));
      kept := kept + one;
    }
  }
}
