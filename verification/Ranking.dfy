/** Entries ranked by the numbers of their keys, compared one after the other, and then by their id. */
module Ranking {
  import opened Sorting

  datatype Entry = Entry(keys: seq<real>, id: nat)

  predicate Less(a: seq<real>, b: seq<real>) {
    if a == [] || b == [] then a == [] && b != []
    else a[0] < b[0] || (a[0] == b[0] && Less(a[1..], b[1..]))
  }

  /** The order of the tuples that are sorted. */
  predicate AtMost(a: Entry, b: Entry) {
    Less(a.keys, b.keys) || (a.keys == b.keys && a.id <= b.id)
  }

  /** The first place at which two lists of numbers differ, and `a` has the smaller number there or ends. */
  ghost predicate SmallerAt(a: seq<real>, b: seq<real>, k: nat) {
    k <= |a| && k < |b| && a[..k] == b[..k] && (k == |a| || a[k] < b[k])
  }

  /** `a` comes before `b`. */
  ghost predicate Precedes(a: Entry, b: Entry) {
    (exists k: nat :: SmallerAt(a.keys, b.keys, k)) || (a.keys == b.keys && a.id < b.id)
  }

  lemma {:induction false} LessIs(a: seq<real>, b: seq<real>)
    ensures Less(a, b) <==> exists k: nat :: SmallerAt(a, b, k)
  {
    if b != [] && a == [] {
      assert SmallerAt(a, b, 0);
    }
    if a != [] && b != [] {
      var x, y := a[1..], b[1..];
      LessIs(x, y);
      if a[0] < b[0] { assert SmallerAt(a, b, 0); }
      if a[0] == b[0] && Less(x, y) {
        var k: nat :| SmallerAt(x, y, k);
        assert a[..k + 1] == [a[0]] + x[..k] && b[..k + 1] == [b[0]] + y[..k];
        assert SmallerAt(a, b, k + 1);
      }
      if k: nat :| SmallerAt(a, b, k) && k > 0 {
        assert a[0] == a[..k][0] == b[..k][0] == b[0];
        assert x[..k - 1] == a[..k][1..] && y[..k - 1] == b[..k][1..];
        assert SmallerAt(x, y, k - 1);
      }
    }
  }

  lemma AtMostIs(a: Entry, b: Entry)
    ensures AtMost(a, b) <==> a == b || Precedes(a, b)
  {
    LessIs(a.keys, b.keys);
  }

  lemma {:induction false} LessIsOrder(a: seq<real>, b: seq<real>)
    ensures Less(a, b) || a == b || Less(b, a)
    ensures !(Less(a, b) && Less(b, a)) && !Less(a, a)
  {
    if a != [] {
      if b != [] {
        LessIsOrder(a[1..], b[1..]);
        assert a == [a[0]] + a[1..] && b == [b[0]] + b[1..];
      } else {
        LessIsOrder(a[1..], []);
      }
    }
  }

  lemma {:induction false} LessTransitive(a: seq<real>, b: seq<real>, c: seq<real>)
    requires Less(a, b) && Less(b, c)
    ensures Less(a, c)
  {
    if a != [] && a[0] == b[0] && b[0] == c[0] {
      LessTransitive(a[1..], b[1..], c[1..]);
    }
  }

  lemma AtMostTransitive(a: Entry, b: Entry, c: Entry)
    requires AtMost(a, b) && AtMost(b, c)
    ensures AtMost(a, c)
  {
    if Less(a.keys, b.keys) && Less(b.keys, c.keys) { LessTransitive(a.keys, b.keys, c.keys); }
  }

  /** The order is total and has no ties. */
  lemma AtMostIsOrder()
    ensures IsOrder(AtMost) && forall a, b :: AtMost(a, b) && AtMost(b, a) ==> a == b
  {
    forall a, b ensures (AtMost(a, b) || AtMost(b, a)) && (AtMost(a, b) && AtMost(b, a) ==> a == b) {
      LessIsOrder(a.keys, b.keys);
      LessIsOrder(a.keys, a.keys);
    }
    forall a, b, c | AtMost(a, b) && AtMost(b, c) ensures AtMost(a, c) {
      AtMostTransitive(a, b, c);
    }
  }

  function Rank(s: seq<Entry>): (r: seq<Entry>)
    ensures multiset(r) == multiset(s) && |r| == |s|
  {
    SameMembers(s, Sort(AtMost, s));
    Sort(AtMost, s)
  }

  ghost predicate Ranked(s: seq<Entry>) {
    InOrder(AtMost, s)
  }

  /** The ids are distinct, as the keys of a table are. */
  predicate DistinctIds(s: seq<Entry>) {
    forall i, j :: 0 <= i < j < |s| ==> s[i].id != s[j].id
  }

  lemma RankOne(e: Entry)
    ensures Rank([e]) == [e]
  {
    assert [e][1..] == [] && Sort(AtMost, []) == [];
  }

  lemma RankInOrder(s: seq<Entry>)
    ensures Ranked(Rank(s))
    ensures forall i, j :: 0 <= i < j < |s| ==> Rank(s)[i] == Rank(s)[j] || Precedes(Rank(s)[i], Rank(s)[j])
  {
    AtMostIsOrder();
    SortInOrder(AtMost, s);
    hide AtMost, Precedes;
    SameMembers(s, Rank(s));
    forall i, j | 0 <= i < j < |s| ensures Rank(s)[i] == Rank(s)[j] || Precedes(Rank(s)[i], Rank(s)[j]) {
      AtMostIs(Rank(s)[i], Rank(s)[j]);
      assert AtMost(Rank(s)[i], Rank(s)[j]);
    }
  }

  /** Two rankings of the same entries are equal. */
  lemma OneRanking(s: seq<Entry>, t: seq<Entry>)
    requires Ranked(s) && Ranked(t) && multiset(s) == multiset(t)
    ensures s == t
  {
    AtMostIsOrder();
    OneOrder(AtMost, s, t);
  }

  /** So the ranking does not depend on the order in which the entries come. */
  lemma RankingIndependentOfOrder(s: seq<Entry>, t: seq<Entry>)
    requires multiset(s) == multiset(t)
    ensures Rank(s) == Rank(t)
  {
    RankInOrder(s);
    RankInOrder(t);
    OneRanking(Rank(s), Rank(t));
  }

  lemma {:induction false} CountsOnce(s: seq<Entry>, x: Entry)
    requires DistinctIds(s)
    ensures multiset(s)[x] == if x in s then 1 else 0
  {
    if s != [] {
      assert s == [s[0]] + s[1..];
      CountsOnce(s[1..], x);
    }
  }

  /** With distinct ids the members say it all. */
  lemma SameEntries(s: seq<Entry>, t: seq<Entry>)
    requires DistinctIds(s) && DistinctIds(t) && forall x :: x in s <==> x in t
    ensures multiset(s) == multiset(t)
  {
    forall x ensures multiset(s)[x] == multiset(t)[x] {
      CountsOnce(s, x);
      CountsOnce(t, x);
    }
  }

  /** Ranking keeps the ids apart. */
  lemma RankKeepsDistinct(s: seq<Entry>)
    requires DistinctIds(s)
    ensures DistinctIds(Rank(s))
  {
    var r := Rank(s);
    SameMembers(s, r);
    forall i, j | 0 <= i < j < |r| ensures r[i].id != r[j].id {
      assert r[i] in s && r[j] in s;
      if r[i] == r[j] {
        CountsOnce(s, r[i]);
        TwoCount(r, i, j);
      }
    }
  }

  lemma TwoCount(s: seq<Entry>, i: nat, j: nat)
    requires i < j < |s| && s[i] == s[j]
    ensures multiset(s)[s[i]] >= 2
  {
    assert s == s[..i] + [s[i]] + s[i + 1..j] + [s[j]] + s[j + 1..];
  }
}
