/**
 * Half-open intervals of clock ticks, the set of ticks a list of intervals covers, and
 * the sorted sweep that measures that set without building it.
 */
module Intervals {
  import opened Basics
  import opened Wrappers

  import Sorting

  datatype Interval = Interval(start: int, stop: int)

  /** The ticks from `lo` up to, not including, `hi`. */
  ghost function Ticks(lo: int, hi: int): (s: set<int>)
    ensures forall t :: t in s <==> lo <= t < hi
    ensures |s| == Max(0, hi - lo)
    decreases hi - lo
  {
    if hi <= lo then {} else Ticks(lo, hi - 1) + {hi - 1}
  }

  ghost predicate Covers(ivs: seq<Interval>, t: int) {
    exists iv :: iv in ivs && iv.start <= t < iv.stop
  }

  /** Every tick that lies in at least one of the intervals. */
  ghost function Cover(ivs: seq<Interval>): set<int> {
    if ivs == [] then {} else
      var n := |ivs| - 1;
      Cover(ivs[..n]) + Ticks(ivs[n].start, ivs[n].stop)
  }

  lemma {:induction false} CoverMeans(ivs: seq<Interval>, t: int)
    ensures t in Cover(ivs) <==> Covers(ivs, t)
  {
    if ivs != [] {
      var n := |ivs| - 1;
      CoverMeans(ivs[..n], t);
      assert forall iv :: iv in ivs <==> iv in ivs[..n] || iv == ivs[n] by {
        assert ivs == ivs[..n] + [ivs[n]];
      }
    }
  }

  lemma DisjointUnionCount<T>(a: set<T>, b: set<T>)
    requires a !! b
    ensures |a + b| == |a| + |b|
  {
  }

  /** Adding one interval to a list adds its ticks to the cover. */
  lemma CoverAppend(ivs: seq<Interval>, iv: Interval)
    ensures Cover(ivs + [iv]) == Cover(ivs) + Ticks(iv.start, iv.stop)
  {
    assert (ivs + [iv])[..|ivs|] == ivs;
  }

  /** The cover depends only on which intervals occur, so sorting a list keeps it. */
  lemma CoverOfPermutation(a: seq<Interval>, b: seq<Interval>)
    requires multiset(a) == multiset(b)
    ensures Cover(a) == Cover(b)
  {
    assert forall iv :: iv in a <==> iv in multiset(a);
    assert forall iv :: iv in b <==> iv in multiset(b);
    forall t ensures t in Cover(a) <==> t in Cover(b) {
      CoverMeans(a, t);
      CoverMeans(b, t);
    }
  }

  /** Tuple order on (start, stop). */
  predicate Before(a: Interval, b: Interval) {
    a.start < b.start || (a.start == b.start && a.stop <= b.stop)
  }

  ghost predicate InOrder(ivs: seq<Interval>) {
    forall i, j :: 0 <= i < j < |ivs| ==> Before(ivs[i], ivs[j])
  }

  lemma BeforeIsOrder()
    ensures Sorting.IsOrder(Before)
  {
  }

  function Sorted(ivs: seq<Interval>): (r: seq<Interval>)
    ensures InOrder(r)
    ensures multiset(r) == multiset(ivs)
  {
    BeforeIsOrder();
    Sorting.SortInOrder(Before, ivs);
    Sorting.Sort(Before, ivs)
  }

  /** The first `k` intervals of the sweep reach exactly up to `end`. */
  ghost predicate Reaches(ivs: seq<Interval>, k: nat, end: Option<int>)
    requires k <= |ivs|
  {
    && (end.None? <==> k == 0)
    && (end.Some? ==>
          && (forall m :: 0 <= m < k ==> ivs[m].stop <= end.value)
          && (exists m :: 0 <= m < k && ivs[m].stop == end.value))
  }

  /** What the sweep skips of an interval is what the earlier ones already cover. */
  lemma SweepSkips(ivs: seq<Interval>, k: nat, end: Option<int>, t: int)
    requires InOrder(ivs) && k < |ivs| && Reaches(ivs, k, end)
    requires ivs[k].start <= t
    ensures t in Cover(ivs[..k]) <==> end.Some? && t < end.value
  {
    CoverMeans(ivs[..k], t);
    if end.Some? && t < end.value {
      var m :| 0 <= m < k && ivs[m].stop == end.value;
      assert Before(ivs[m], ivs[k]);
      assert ivs[m] in ivs[..k];
    }
  }

  lemma AddedBeyond(seen: set<int>, iv: Interval, end: Option<int>)
    requires forall t :: iv.start <= t ==> (t in seen <==> end.Some? && t < end.value)
    ensures var added := Ticks(Max(iv.start, if end.Some? then end.value else iv.start), iv.stop);
            seen + Ticks(iv.start, iv.stop) == seen + added && seen !! added
  {
  }

  /** One step of the sweep adds exactly the ticks no earlier interval covers. */
  lemma SweepStep(ivs: seq<Interval>, k: nat, end: Option<int>)
    requires InOrder(ivs) && k < |ivs| && Reaches(ivs, k, end)
    ensures var from := Max(ivs[k].start, if end.Some? then end.value else ivs[k].start);
            |Cover(ivs[..k + 1])| == |Cover(ivs[..k])| + Max(0, ivs[k].stop - from)
  {
    var iv := ivs[k];
    var from := Max(iv.start, if end.Some? then end.value else iv.start);
    hide Before, Ticks, Covers;
    var seen, added := Cover(ivs[..k]), Ticks(from, iv.stop);
    assert ivs[..k + 1] == ivs[..k] + [iv];
    CoverAppend(ivs[..k], iv);
    forall t | iv.start <= t ensures t in seen <==> end.Some? && t < end.value {
      SweepSkips(ivs, k, end, t);
    }
    AddedBeyond(seen, iv, end);
    DisjointUnionCount(seen, added);
  }

  /** `interval_union`: the sweep measures the cover of any list of intervals. */
  method IntervalUnion(intervals: seq<Interval>) returns (total: int)
    ensures total == |Cover(intervals)|
  {
    var sorted := Sorted(intervals);
    var end: Option<int> := None;
    total := 0;
    for k := 0 to |sorted|
      invariant Reaches(sorted, k, end)
      invariant total == |Cover(sorted[..k])|
    {
      SweepStep(sorted, k, end);
      var iv := sorted[k];
      var from := Max(iv.start, if end.Some? then end.value else iv.start);
      total := total + Max(0, iv.stop - from);
      var reached := Max(iv.stop, if end.Some? then end.value else iv.stop);
      assert exists m :: 0 <= m < k + 1 && sorted[m].stop == reached by {
        if reached == iv.stop {
          assert sorted[k].stop == reached;
        }
      }
      end := Some(reached);
    }
    assert sorted[..|sorted|] == sorted;
    CoverOfPermutation(sorted, intervals);
  }
}
