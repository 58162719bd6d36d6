/** Small definitions on numbers and sequences that the other modules share. */
module Basics {

  function Max(a: int, b: int): int {
    if a < b then b else a
  }

  function Min(a: int, b: int): int {
    if a < b then a else b
  }

  predicate Distinct<T(==)>(s: seq<T>) {
    forall i, j :: 0 <= i < j < |s| ==> s[i] != s[j]
  }

  /** The sequence without the first occurrence of `x`. */
  function Without<T(==)>(s: seq<T>, x: T): seq<T> {
    if s == [] then [] else if s[0] == x then s[1..] else [s[0]] + Without(s[1..], x)
  }

  lemma {:induction false} WithoutIs<T>(s: seq<T>, x: T)
    requires Distinct(s)
    ensures Distinct(Without(s, x))
    ensures forall y :: y in Without(s, x) <==> y in s && y != x
    ensures |Without(s, x)| == if x in s then |s| - 1 else |s|
  {
    if s != [] {
      var rest := s[1..];
      assert s == [s[0]] + rest;
      DistinctRest(s);
      WithoutIs(rest, x);
      assert s[0] !in Without(rest, x);
    }
  }

  lemma DistinctRest<T>(s: seq<T>)
    requires Distinct(s) && s != []
    ensures Distinct(s[1..]) && s[0] !in s[1..]
  {
    assert forall k :: 0 <= k < |s| - 1 ==> s[1..][k] == s[k + 1];
  }

  lemma {:induction false} WithoutLast<T>(s: seq<T>)
    requires Distinct(s) && s != []
    ensures Without(s, s[|s| - 1]) == s[..|s| - 1]
  {
    if |s| > 1 {
      var rest := s[1..];
      DistinctRest(s);
      WithoutLast(rest);
      assert s[|s| - 1] == rest[|rest| - 1] && s[|s| - 1] in rest;
      assert s[..|s| - 1] == [s[0]] + rest[..|rest| - 1];
    }
  }

  lemma SliceOfSlice<T>(s: seq<T>, a: nat, b: nat, p: nat, q: nat)
    requires a <= b <= |s| && p <= q <= b - a
    ensures s[a..b][p..q] == s[a + p..a + q]
  {
    var inner, outer := s[a..b][p..q], s[a + p..a + q];
    forall k | 0 <= k < q - p ensures inner[k] == outer[k] { }
  }
}
