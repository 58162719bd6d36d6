/** Stable sorting by any total order, possibly with ties. */
module Sorting {

  /** Any two are related, and the relation is transitive. */
  ghost predicate IsOrder<T(!new)>(le: (T, T) -> bool) {
    && (forall x, y :: le(x, y) || le(y, x))
    && (forall x, y, z :: le(x, y) && le(y, z) ==> le(x, z))
  }

  ghost predicate InOrder<T>(le: (T, T) -> bool, s: seq<T>) {
    forall i, j :: 0 <= i < j < |s| ==> le(s[i], s[j])
  }

  function Insert<T>(le: (T, T) -> bool, x: T, s: seq<T>): (r: seq<T>)
    ensures multiset(r) == multiset(s) + multiset{x}
  {
    if s == [] || le(x, s[0]) then [x] + s else
      assert s == [s[0]] + s[1..];
      [s[0]] + Insert(le, x, s[1..])
  }

  function Sort<T>(le: (T, T) -> bool, s: seq<T>): (r: seq<T>)
    ensures multiset(r) == multiset(s)
  {
    if s == [] then [] else
      assert s == [s[0]] + s[1..];
      Insert(le, s[0], Sort(le, s[1..]))
  }

  lemma SameMembers<T>(s: seq<T>, r: seq<T>)
    requires multiset(r) == multiset(s)
    ensures |r| == |s| && forall x :: x in r <==> x in s
  {
    assert |multiset(r)| == |r| && |multiset(s)| == |s|;
    assert forall x :: x in r <==> x in multiset(r);
    assert forall x :: x in s <==> x in multiset(s);
  }

  lemma HeadFirst<T>(le: (T, T) -> bool, x: T, s: seq<T>)
    requires InOrder(le, s) && forall y :: y in s ==> le(x, y)
    ensures InOrder(le, [x] + s)
  {
  }

  lemma TailInOrder<T>(le: (T, T) -> bool, s: seq<T>)
    requires InOrder(le, s) && s != []
    ensures s == [s[0]] + s[1..] && InOrder(le, s[1..]) && forall y :: y in s[1..] ==> le(s[0], y)
  {
  }

  lemma {:induction false} InsertInOrder<T(!new)>(le: (T, T) -> bool, x: T, s: seq<T>)
    requires IsOrder(le) && InOrder(le, s)
    ensures InOrder(le, Insert(le, x, s))
  {
    hide InOrder;
    if s == [] {
      HeadFirst(le, x, s);
    } else {
      var rest := s[1..];
      TailInOrder(le, s);
      if le(x, s[0]) {
        forall y | y in s ensures le(x, y) {
          assert y == s[0] || y in rest;
        }
        HeadFirst(le, x, s);
      } else {
        InsertInOrder(le, x, rest);
        SameMembers([x] + rest, Insert(le, x, rest));
        HeadFirst(le, s[0], Insert(le, x, rest));
      }
    }
  }

  lemma {:induction false} SortInOrder<T(!new)>(le: (T, T) -> bool, s: seq<T>)
    requires IsOrder(le)
    ensures InOrder(le, Sort(le, s))
  {
    if s != [] {
      SortInOrder(le, s[1..]);
      InsertInOrder(le, s[0], Sort(le, s[1..]));
    }
  }

  /** Without ties there is one way to put given items in order. */
  lemma {:induction false} OneOrder<T>(le: (T, T) -> bool, a: seq<T>, b: seq<T>)
    requires InOrder(le, a) && InOrder(le, b) && multiset(a) == multiset(b)
    requires forall x, y :: x in a && y in a && le(x, y) && le(y, x) ==> x == y
    ensures a == b
  {
    hide InOrder;
    SameMembers(a, b);
    if a != [] {
      TailInOrder(le, a);
      TailInOrder(le, b);
      assert a[0] in b && b[0] in a;
      var x, y := a[0], b[0];
      assert (x == y || le(y, x)) && (x == y || le(x, y));
      assert multiset(a[1..]) == multiset(a) - multiset{a[0]} && multiset(b[1..]) == multiset(b) - multiset{b[0]};
      OneOrder(le, a[1..], b[1..]);
    }
  }
}
