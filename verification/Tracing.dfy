/**
 * Request tracing with constant memory per span.  A handle remembers one number,
 * `covered`, instead of the intervals of all its closed children; the ghost field
 * `closed` keeps those intervals so that the number can be compared with them.
 *
 * Opening and closing a span each run under the trace lock and read the clock there, so
 * every run of a trace, however its threads interleave, is a sequence of `Open`, `Close`,
 * `Finish` and `Snapshot` calls with clock readings that never decrease.
 */
module Tracing {
  import opened Basics
  import opened Wrappers
  import opened Intervals

  const MAX_ACTIVE := 128

  datatype Row = Row(
    parent: Option<nat>, routine: string, name: string,
    inclusive: int, own: int, longest: int, calls: nat)

  class Handle {
    const parent: Handle?
    const row: nat
    const start: int
    var covered: int
    ghost var closed: seq<Interval>

    constructor (parent: Handle?, row: nat, start: int)
      ensures this.parent == parent && this.row == row && this.start == start
      ensures covered == 0 && closed == []
    {
      this.parent, this.row, this.start := parent, row, start;
      covered, closed := 0, [];
    }
  }

  /** The intervals, cut off at `now`, of the active children of `h`. */
  function RunningChildren(active: seq<Handle>, h: Handle, now: int): seq<Interval> {
    if active == [] then [] else
      var n := |active| - 1;
      RunningChildren(active[..n], h, now) + if active[n].parent == h then [Interval(active[n].start, now)] else []
  }

  /** The start of the earliest active child of `h`. */
  function EarliestChild(active: seq<Handle>, h: Handle): Option<int> {
    if active == [] then None else
      var n := |active| - 1;
      var e := EarliestChild(active[..n], h);
      if active[n].parent != h then e
      else if e.None? || active[n].start < e.value then Some(active[n].start)
      else e
  }

  /** `e` is the earliest start of an active child of `p`, if there is one. */
  ghost predicate IsEarliest(active: seq<Handle>, p: Handle, e: Option<int>) {
    if e.None? then forall c :: c in active ==> c.parent != p
    else
      && (exists c :: c in active && c.parent == p && c.start == e.value)
      && (forall c :: c in active && c.parent == p ==> e.value <= c.start)
  }

  lemma {:induction false} EarliestChildIs(active: seq<Handle>, h: Handle)
    ensures IsEarliest(active, h, EarliestChild(active, h))
  {
    if active != [] {
      var n := |active| - 1;
      assert active == active[..n] + [active[n]];
      EarliestChildIs(active[..n], h);
    }
  }

  /** Together the active children of `h` cover one stretch: from the earliest start to `now`. */
  lemma {:induction false} RunningCover(active: seq<Handle>, h: Handle, now: int)
    ensures var e := EarliestChild(active, h);
            Cover(RunningChildren(active, h, now)) == if e.Some? then Ticks(e.value, now) else {}
  {
    hide Ticks;
    if active != [] {
      var n := |active| - 1;
      RunningCover(active[..n], h, now);
      if active[n].parent == h {
        CoverAppend(RunningChildren(active[..n], h, now), Interval(active[n].start, now));
      } else {
        assert RunningChildren(active, h, now) == RunningChildren(active[..n], h, now);
      }
    }
  }

  function Frontier(active: seq<Handle>, h: Handle, default: int): int {
    var e := EarliestChild(active, h);
    if e.Some? then e.value else default
  }

  ghost function Settled(closed: seq<Interval>, frontier: int): set<int> {
    set t | t in Cover(closed) && t < frontier
  }

  /** The number of closed ticks before the frontier: what `covered` stands for. */
  ghost function SettledCount(closed: seq<Interval>, frontier: int): nat {
    |Settled(closed, frontier)|
  }

  ghost predicate ClosedWithin(closed: seq<Interval>, from: int, now: int) {
    forall iv :: iv in closed ==> from <= iv.start <= iv.stop <= now
  }

  lemma ClosedCoverBound(closed: seq<Interval>, from: int, now: int, t: int)
    requires ClosedWithin(closed, from, now) && t in Cover(closed)
    ensures from <= t < now
  {
    CoverMeans(closed, t);
    var k :| 0 <= k < |closed| && closed[k].start <= t < closed[k].stop;
    assert closed[k] in closed;
  }

  lemma SplitAtFrontier(covered: set<int>, settled: set<int>, running: set<int>, frontier: int, now: int, t: int)
    requires frontier <= now <= t && forall x :: x in covered ==> x < now
    requires forall x :: x in settled <==> x in covered && x < frontier
    requires running == Ticks(frontier, t) || (running == {} && frontier == now)
    ensures |covered + running| == |settled| + |running|
  {
    assert covered + running == settled + running;
    DisjointUnionCount(settled, running);
  }

  /** Closed ticks before the frontier and the running stretch after it are all the ticks of children. */
  lemma CoverageSplit(closed: seq<Interval>, running: set<int>, frontier: int, from: int, now: int, t: int)
    requires ClosedWithin(closed, from, now) && from <= frontier <= now <= t
    requires running == Ticks(frontier, t) || (running == {} && frontier == now)
    ensures |Cover(closed) + running| == SettledCount(closed, frontier) + |running|
    ensures Cover(closed) + running <= Ticks(from, t)
  {
    forall x | x in Cover(closed) ensures from <= x < now {
      ClosedCoverBound(closed, from, now, x);
    }
    hide Cover, ClosedWithin;
    SplitAtFrontier(Cover(closed), Settled(closed, frontier), running, frontier, now, t);
  }

  lemma SettledBound(closed: seq<Interval>, from: int, now: int, frontier: int)
    requires ClosedWithin(closed, from, now) && from <= frontier
    ensures SettledCount(closed, frontier) <= frontier - from
  {
    var settled := Settled(closed, frontier);
    forall x | x in settled ensures x in Ticks(from, frontier) { ClosedCoverBound(closed, from, now, x); }
    hide Settled;
    DisjointUnionCount(settled, Ticks(from, frontier) - settled);
    assert settled + (Ticks(from, frontier) - settled) == Ticks(from, frontier);
  }

  /** Closing a child that started at or after the frontier `f` moves the frontier to `g`. */
  lemma SettledStep(closed: seq<Interval>, f: int, start: int, end: int, g: int)
    requires f <= start <= end && f <= g <= end
    requires f < g ==> f == start
    ensures SettledCount(closed + [Interval(start, end)], g) == SettledCount(closed, f) + Max(0, Min(end, g) - start)
  {
    CoverAppend(closed, Interval(start, end));
    var added := Ticks(start, g);
    assert Settled(closed + [Interval(start, end)], g) == Settled(closed, f) + added;
    DisjointUnionCount(Settled(closed, f), added);
  }

  function FindRow(rows: seq<Row>, parent: Option<nat>, routine: string, name: string): (k: Option<nat>)
    ensures k.Some? ==> k.value < |rows| && IsRow(rows[k.value], parent, routine, name)
    ensures k.None? ==> forall r :: r in rows ==> !IsRow(r, parent, routine, name)
  {
    if rows == [] then None else
      var n := |rows| - 1;
      if IsRow(rows[n], parent, routine, name) then Some(n)
      else FindRow(rows[..n], parent, routine, name)
  }

  predicate IsRow(r: Row, parent: Option<nat>, routine: string, name: string) {
    r.parent == parent && r.routine == routine && r.name == name
  }

  lemma FrontierOfFewer(active: seq<Handle>, left: seq<Handle>, h: Handle, p: Handle, e: Option<int>, e': Option<int>)
    requires h in active && forall x :: x in left <==> x in active && x != h
    requires IsEarliest(active, p, e) && IsEarliest(left, p, e')
    ensures if p != h.parent then e' == e
            else
              && e.Some? && e.value <= h.start
              && (e'.Some? ==> e.value <= e'.value)
              && (e' != e ==> e.value == h.start)
  {
    if e'.Some? {
      var c :| c in left && c.parent == p && c.start == e'.value;
      assert c in active;
    }
    if e.Some? {
      var c :| c in active && c.parent == p && c.start == e.value;
      assert c == h || c in left;
    }
  }

  /** Removing `h` moves a frontier only if it is `h`'s parent's and `h` was its only earliest child. */
  lemma FrontierWithout(active: seq<Handle>, h: Handle, p: Handle)
    requires Distinct(active) && h in active
    ensures var e, e' := EarliestChild(active, p), EarliestChild(Without(active, h), p);
            if p != h.parent then e' == e
            else
              && e.Some? && e.value <= h.start
              && (e'.Some? ==> e.value <= e'.value)
              && (e' != e ==> e.value == h.start)
  {
    var left := Without(active, h);
    EarliestChildIs(active, p);
    EarliestChildIs(left, p);
    WithoutIs(active, h);
    hide EarliestChild, Without, Distinct;
    FrontierOfFewer(active, left, h, p, EarliestChild(active, p), EarliestChild(left, p));
  }

  /** One thread: every active span is a child of the one opened just before it. */
  ghost predicate Stacked(active: seq<Handle>) {
    && (active != [] ==> active[0].parent == null)
    && forall k :: 1 <= k < |active| ==> active[k].parent == active[k - 1]
  }

  /** With one thread the innermost span has no active child. */
  lemma InnermostIsChildless(active: seq<Handle>, h: Handle, n: nat)
    requires Distinct(active) && Stacked(active) && |active| == n + 1 && active[n] == h
    ensures EarliestChild(active, h) == None
  {
    EarliestChildIs(active, h);
    forall k | 0 <= k <= n ensures active[k].parent != h {
      if k > 0 { assert active[k].parent == active[k - 1] && active[k - 1] != active[n]; }
    }
  }

  ghost function Coverages(hs: seq<Handle>): (covered: seq<int>)
    reads hs
    ensures |covered| == |hs| && forall k :: 0 <= k < |hs| ==> covered[k] == hs[k].covered
  {
    if hs == [] then [] else Coverages(hs[..|hs| - 1]) + [hs[|hs| - 1].covered]
  }

  /** The sum of the values given for the handles of row `r`. */
  ghost function RowSum(hs: seq<Handle>, values: seq<int>, r: nat): int
    requires |values| == |hs|
  {
    if hs == [] then 0 else
      var n := |hs| - 1;
      RowSum(hs[..n], values[..n], r) + if hs[n].row == r then values[n] else 0
  }

  /** The sum of the values given for the handles whose row is a child of row `r`. */
  ghost function ChildSum(rows: seq<Row>, hs: seq<Handle>, values: seq<int>, r: nat): int
    requires |values| == |hs| && forall h :: h in hs ==> h.row < |rows|
  {
    if hs == [] then 0 else
      var n := |hs| - 1;
      ChildSum(rows, hs[..n], values[..n], r) + if rows[hs[n].row].parent == Some(r) then values[n] else 0
  }

  /** The inclusive time of the rows whose parent row is `p`, or of those without one. */
  ghost function InclusiveUnder(rows: seq<Row>, p: Option<nat>): int {
    if rows == [] then 0 else
      var n := |rows| - 1;
      InclusiveUnder(rows[..n], p) + if rows[n].parent == p then rows[n].inclusive else 0
  }

  lemma {:induction false} UnderUpdate(rows: seq<Row>, k: nat, row: Row, p: Option<nat>)
    requires k < |rows| && row.parent == rows[k].parent
    ensures InclusiveUnder(rows[k := row], p) == InclusiveUnder(rows, p) +
              if row.parent == p then row.inclusive - rows[k].inclusive else 0
  {
    var n := |rows| - 1;
    if k == n {
      assert rows[k := row][..n] == rows[..n];
    } else {
      assert rows[k := row][..n] == rows[..n][k := row];
      UnderUpdate(rows[..n], k, row, p);
    }
  }

  lemma {:induction false} UnderNone(rows: seq<Row>, p: Option<nat>)
    requires forall k :: 0 <= k < |rows| ==> rows[k].parent != p
    ensures InclusiveUnder(rows, p) == 0
  {
    if rows != [] { UnderNone(rows[..|rows| - 1], p); }
  }

  lemma {:induction false} RowSumNone(hs: seq<Handle>, covered: seq<int>, r: nat)
    requires |covered| == |hs| && forall h :: h in hs ==> h.row != r
    ensures RowSum(hs, covered, r) == 0
  {
    if hs != [] { RowSumNone(hs[..|hs| - 1], covered[..|hs| - 1], r); }
  }

  /** What a row's children took is what the row did not keep, up to its unfinished calls. */
  ghost predicate Balanced(rows: seq<Row>, hs: seq<Handle>, covered: seq<int>)
    requires |covered| == |hs|
  {
    forall r :: 0 <= r < |rows| ==>
      rows[r].inclusive - rows[r].own + RowSum(hs, covered, r) == InclusiveUnder(rows, Some(r))
  }

  lemma EnteredKeepsBalance(rows: seq<Row>, k: nat, blank: Row, hs: seq<Handle>, covered: seq<int>, h: Handle)
    requires |covered| == |hs| && Balanced(rows, hs, covered) && k <= |rows|
    requires blank.inclusive == blank.own == 0 && blank.parent != Some(|rows|)
    requires forall r :: 0 <= r < |rows| ==> rows[r].parent != Some(|rows|)
    requires forall x :: x in hs ==> x.row < |rows|
    ensures Balanced(Entered(rows, k, blank), hs + [h], covered + [0])
  {
    var rows', covered' := Entered(rows, k, blank), covered + [0];
    assert (hs + [h])[..|hs|] == hs && covered'[..|hs|] == covered;
    forall r | 0 <= r < |rows'|
      ensures rows'[r].inclusive - rows'[r].own + RowSum(hs + [h], covered', r) == InclusiveUnder(rows', Some(r))
    {
      if k < |rows| {
        UnderUpdate(rows, k, rows'[k], Some(r));
      } else {
        assert rows'[..|rows|] == rows;
        if r == k {
          UnderNone(rows, Some(r));
          RowSumNone(hs, covered, r);
        }
      }
    }
  }

  /** Charging the innermost call to its row and its time to the call around it keeps the balance. */
  lemma ChargedKeepsBalance(rows: seq<Row>, hs: seq<Handle>, covered: seq<int>, h: Handle, d: int, own: int,
                            rows': seq<Row>, covered': seq<int>)
    requires |covered| == |hs| + 1 && |covered'| == |hs| && Balanced(rows, hs + [h], covered)
    requires h.row < |rows| && rows[h.row].parent == RowOf(if hs == [] then null else hs[|hs| - 1])
    requires own == d - covered[|hs|] && rows' == Charged(rows, h.row, d, own)
    requires forall k :: 0 <= k < |hs| - 1 ==> covered'[k] == covered[k]
    requires hs != [] ==> covered'[|hs| - 1] == covered[|hs| - 1] + d
    ensures Balanced(rows', hs, covered')
  {
    var n := |hs|;
    assert (hs + [h])[..n] == hs;
    if n > 0 { assert covered[..n][..n - 1] == covered'[..n - 1]; }
    forall r | 0 <= r < |rows'|
      ensures rows'[r].inclusive - rows'[r].own + RowSum(hs, covered', r) == InclusiveUnder(rows', Some(r))
    {
      UnderUpdate(rows, h.row, rows'[h.row], Some(r));
      assert RowSum(hs, covered', r) ==
             RowSum(hs, covered[..n], r) + if n > 0 && hs[n - 1].row == r then d else 0;
    }
  }

  /** Each row's inclusive time is its own time plus its child rows' inclusive times. */
  ghost predicate Conserved(rows: seq<Row>) {
    forall r :: 0 <= r < |rows| ==> rows[r].inclusive == rows[r].own + InclusiveUnder(rows, Some(r))
  }

  /** Every row lists its parent before itself. */
  ghost predicate ParentsFirst(rows: seq<Row>) {
    forall r :: 0 <= r < |rows| && rows[r].parent.Some? ==> rows[r].parent.value < r
  }

  /** The own times of row `r` and of everything below it, among the first `n` rows. */
  ghost function SubtreeOwn(rows: seq<Row>, r: nat, n: nat): int
    requires r < |rows| && n <= |rows| && ParentsFirst(rows)
    decreases |rows| - r, n
  {
    if n == 0 then rows[r].own else
      SubtreeOwn(rows, r, n - 1) + if rows[n - 1].parent == Some(r) then SubtreeOwn(rows, n - 1, |rows|) else 0
  }

  lemma {:induction false} SubtreePrefix(rows: seq<Row>, r: nat, n: nat)
    requires r < |rows| && n <= |rows| && ParentsFirst(rows) && Conserved(rows)
    ensures SubtreeOwn(rows, r, n) == rows[r].own + InclusiveUnder(rows[..n], Some(r))
    decreases |rows| - r, n
  {
    if n > 0 {
      SubtreePrefix(rows, r, n - 1);
      assert rows[..n][..n - 1] == rows[..n - 1];
      if rows[n - 1].parent == Some(r) {
        SubtreePrefix(rows, n - 1, |rows|);
        assert rows[..|rows|] == rows;
      }
    }
  }

  /** The own times in any subtree of the rows add up to the inclusive time of its root. */
  lemma SubtreeConservation(rows: seq<Row>, r: nat)
    requires r < |rows| && ParentsFirst(rows) && Conserved(rows)
    ensures SubtreeOwn(rows, r, |rows|) == rows[r].inclusive
  {
    SubtreePrefix(rows, r, |rows|);
    assert rows[..|rows|] == rows;
  }

  /** The rows with the time each active handle has run so far added to its row. */
  ghost function WithRunning(rows: seq<Row>, hs: seq<Handle>, times: seq<int>): (r: seq<Row>)
    requires |times| == |hs|
    ensures |r| == |rows| && forall k :: 0 <= k < |rows| ==>
              r[k].parent == rows[k].parent && r[k].inclusive == rows[k].inclusive + RowSum(hs, times, k)
  {
    seq(|rows|, r requires 0 <= r < |rows| => rows[r].(inclusive := rows[r].inclusive + RowSum(hs, times, r)))
  }

  lemma {:induction false} RunningChildSum(rows: seq<Row>, hs: seq<Handle>, times: seq<int>, r: nat)
    requires |times| == |hs| && forall h :: h in hs ==> h.row < |rows|
    ensures InclusiveUnder(WithRunning(rows, hs, times), Some(r)) == InclusiveUnder(rows, Some(r)) + ChildSum(rows, hs, times, r)
  {
    if hs == [] {
      assert WithRunning(rows, hs, times) == rows;
    } else {
      var n := |hs| - 1;
      var before := WithRunning(rows, hs[..n], times[..n]);
      var k := hs[n].row;
      RunningChildSum(rows, hs[..n], times[..n], r);
      UnderUpdate(before, k, before[k].(inclusive := before[k].inclusive + times[n]), Some(r));
      assert WithRunning(rows, hs, times) == before[k := before[k].(inclusive := before[k].inclusive + times[n])];
    }
  }

  ghost predicate RowsMatch(rows: seq<Row>, hs: seq<Handle>) {
    forall h :: h in hs ==> h.row < |rows| && rows[h.row].parent == RowOf(h.parent)
  }

  ghost function Next(times: seq<int>, i: nat): int {
    if i + 1 < |times| then times[i + 1] else 0
  }

  lemma RowSumStep(hs: seq<Handle>, values: seq<int>, k: nat, r: nat)
    requires |values| == |hs| && k < |hs|
    ensures RowSum(hs[..k + 1], values[..k + 1], r) ==
            RowSum(hs[..k], values[..k], r) + if hs[k].row == r then values[k] else 0
  {
    assert hs[..k + 1][..k] == hs[..k] && values[..k + 1][..k] == values[..k];
  }

  lemma ChildSumStep(rows: seq<Row>, hs: seq<Handle>, values: seq<int>, k: nat, r: nat)
    requires |values| == |hs| && k < |hs| && forall h :: h in hs ==> h.row < |rows|
    ensures ChildSum(rows, hs[..k + 1], values[..k + 1], r) ==
            ChildSum(rows, hs[..k], values[..k], r) + if rows[hs[k].row].parent == Some(r) then values[k] else 0
  {
    assert hs[..k + 1][..k] == hs[..k] && values[..k + 1][..k] == values[..k];
  }

  /**
   * In a stack, what a handle's own time misses of its inclusive time is its covered time, the time of
   * the handle above it, and the amount by which the shown own time is off.
   */
  lemma {:induction false} StackSums(rows: seq<Row>, hs: seq<Handle>, times: seq<int>, covered: seq<int>,
                                     owns: seq<int>, off: seq<int>, k: nat, r: nat)
    requires |times| == |covered| == |owns| == |off| == |hs| && k <= |hs| && Stacked(hs)
    requires RowsMatch(rows, hs)
    requires forall i :: 0 <= i < |hs| ==> off[i] == times[i] - covered[i] - Next(times, i) - owns[i]
    ensures RowSum(hs[..k], times[..k], r) - RowSum(hs[..k], owns[..k], r) ==
              RowSum(hs[..k], covered[..k], r) + ChildSum(rows, hs[..k], times[..k], r) + RowSum(hs[..k], off[..k], r) +
              if k > 0 && hs[k - 1].row == r then Next(times, k - 1) else 0
  {
    if k > 0 {
      StackSums(rows, hs, times, covered, owns, off, k - 1, r);
      RowSumStep(hs, times, k - 1, r);
      RowSumStep(hs, owns, k - 1, r);
      RowSumStep(hs, covered, k - 1, r);
      RowSumStep(hs, off, k - 1, r);
      ChildSumStep(rows, hs, times, k - 1, r);
      assert hs[k - 1] in hs && rows[hs[k - 1].row].parent == RowOf(if k == 1 then null else hs[k - 2]);
    }
  }

  /** In a stack every call has a row of its own, after the row of the call around it. */
  lemma {:induction false} StackRowsIncrease(rows: seq<Row>, hs: seq<Handle>, i: nat, j: nat)
    requires Stacked(hs) && RowsMatch(rows, hs) && ParentsFirst(rows) && i < j < |hs|
    ensures hs[i].row < hs[j].row
  {
    assert hs[j] in hs && hs[j].parent == hs[j - 1];
    if i < j - 1 { StackRowsIncrease(rows, hs, i, j - 1); }
  }

  lemma {:induction false} OneOfRow(hs: seq<Handle>, values: seq<int>, k: nat, i: nat)
    requires |values| == |hs| && k <= |hs| && i < |hs|
    requires forall j :: 0 <= j < |hs| && j != i ==> hs[j].row != hs[i].row
    ensures RowSum(hs[..k], values[..k], hs[i].row) == if i < k then values[i] else 0
  {
    if k > 0 {
      OneOfRow(hs, values, k - 1, i);
      RowSumStep(hs, values, k - 1, hs[i].row);
    }
  }

  lemma {:induction false} ZeroSum(hs: seq<Handle>, values: seq<int>, k: nat, r: nat)
    requires |values| == |hs| && k <= |hs| && forall i :: 0 <= i < |hs| ==> values[i] == 0
    ensures RowSum(hs[..k], values[..k], r) == 0
  {
    if k > 0 {
      ZeroSum(hs, values, k - 1, r);
      RowSumStep(hs, values, k - 1, r);
    }
  }

  /** The longest of `from` and the values given for the handles of row `r`. */
  ghost function RowMax(hs: seq<Handle>, values: seq<int>, r: nat, from: int): int
    requires |values| == |hs|
  {
    if hs == [] then from else
      var n := |hs| - 1;
      var longest := RowMax(hs[..n], values[..n], r, from);
      if hs[n].row == r then Max(longest, values[n]) else longest
  }

  lemma RowMaxStep(hs: seq<Handle>, values: seq<int>, k: nat, r: nat, from: int)
    requires |values| == |hs| && k < |hs|
    ensures RowMax(hs[..k + 1], values[..k + 1], r, from) ==
            var longest := RowMax(hs[..k], values[..k], r, from);
            if hs[k].row == r then Max(longest, values[k]) else longest
  {
    assert hs[..k + 1][..k] == hs[..k] && values[..k + 1][..k] == values[..k];
  }

  /** `snap` shows each row's finished times plus what its active handles have to add. */
  ghost predicate Shows(snap: seq<Row>, rows: seq<Row>, hs: seq<Handle>, times: seq<int>, owns: seq<int>)
    requires |times| == |owns| == |hs|
  {
    |snap| == |rows| && forall r :: 0 <= r < |rows| ==> ShowsRow(snap[r], rows[r], r, hs, times, owns)
  }

  ghost predicate ShowsRow(item: Row, row: Row, r: nat, hs: seq<Handle>, times: seq<int>, owns: seq<int>)
    requires |times| == |owns| == |hs|
  {
    item == row.(inclusive := row.inclusive + RowSum(hs, times, r), own := row.own + RowSum(hs, owns, r),
                 longest := RowMax(hs, times, r, row.longest))
  }

  lemma SnapshotRow(rows: seq<Row>, hs: seq<Handle>, times: seq<int>, covered: seq<int>, owns: seq<int>,
                    off: seq<int>, snap: seq<Row>, r: nat)
    requires |times| == |covered| == |owns| == |off| == |hs| && Stacked(hs) && RowsMatch(rows, hs)
    requires Balanced(rows, hs, covered)
    requires forall i :: 0 <= i < |hs| ==> off[i] == times[i] - covered[i] - Next(times, i) - owns[i]
    requires Shows(snap, rows, hs, times, owns) && r < |rows|
    ensures snap[r].inclusive == snap[r].own + InclusiveUnder(snap, Some(r)) + RowSum(hs, off, r)
  {
    var run := WithRunning(rows, hs, times);
    assert forall k :: 0 <= k < |snap| ==>
        ShowsRow(snap[k], rows[k], k, hs, times, owns) && snap[k].parent == run[k].parent
        && snap[k].inclusive == run[k].inclusive;
    assert hs[..|hs|] == hs && times[..|hs|] == times && owns[..|hs|] == owns && covered[..|hs|] == covered
           && off[..|hs|] == off;
    hide Shows, Stacked, RowsMatch;
    StackSums(rows, hs, times, covered, owns, off, |hs|, r);
    RunningChildSum(rows, hs, times, r);
    SameInclusive(snap, run, r);
  }

  /** A snapshot of a balanced single-threaded trace is conserved exactly when no own time it shows is off. */
  lemma SnapshotConserved(rows: seq<Row>, hs: seq<Handle>, times: seq<int>, covered: seq<int>, owns: seq<int>,
                          off: seq<int>, snap: seq<Row>)
    requires |times| == |covered| == |owns| == |off| == |hs| && Stacked(hs) && RowsMatch(rows, hs)
    requires Balanced(rows, hs, covered) && ParentsFirst(rows)
    requires forall i :: 0 <= i < |hs| ==> off[i] == times[i] - covered[i] - Next(times, i) - owns[i]
    requires Shows(snap, rows, hs, times, owns)
    ensures Conserved(snap) <==> forall i :: 0 <= i < |hs| ==> off[i] == 0
  {
    forall r | 0 <= r < |rows|
      ensures snap[r].inclusive == snap[r].own + InclusiveUnder(snap, Some(r)) + RowSum(hs, off, r)
    {
      SnapshotRow(rows, hs, times, covered, owns, off, snap, r);
    }
    assert hs[..|hs|] == hs && off[..|hs|] == off;
    forall i | 0 <= i < |hs| ensures hs[i].row < |rows| && RowSum(hs, off, hs[i].row) == off[i] {
      assert hs[i] in hs;
      forall j | 0 <= j < |hs| && j != i ensures hs[j].row != hs[i].row {
        if j < i { StackRowsIncrease(rows, hs, j, i); } else { StackRowsIncrease(rows, hs, i, j); }
      }
      OneOfRow(hs, off, |hs|, i);
    }
    if forall i :: 0 <= i < |hs| ==> off[i] == 0 {
      forall r ensures RowSum(hs, off, r) == 0 { ZeroSum(hs, off, |hs|, r); }
    }
  }

  lemma {:induction false} SameInclusive(a: seq<Row>, b: seq<Row>, r: nat)
    requires |a| == |b|
    requires forall k :: 0 <= k < |a| ==> a[k].parent == b[k].parent && a[k].inclusive == b[k].inclusive
    ensures InclusiveUnder(a, Some(r)) == InclusiveUnder(b, Some(r))
  {
    if a != [] { SameInclusive(a[..|a| - 1], b[..|a| - 1], r); }
  }

  function RowOf(h: Handle?): Option<nat> {
    if h == null then None else Some(h.row)
  }

  /** A call of row `k`, which is new when `k` is the number of rows. */
  function Entered(rows: seq<Row>, k: nat, blank: Row): (r: seq<Row>)
    requires k <= |rows|
    ensures |r| == Max(|rows|, k + 1)
    ensures RowsExtend(rows, r)
  {
    if k < |rows| then rows[k := rows[k].(calls := rows[k].calls + 1)] else rows + [blank.(calls := 1)]
  }

  /** One finished call of row `k`. */
  function Charged(rows: seq<Row>, k: nat, duration: int, own: int): (r: seq<Row>)
    requires k < |rows|
    ensures |r| == |rows| && RowsExtend(rows, r)
  {
    var row := rows[k];
    rows[k := row.(inclusive := row.inclusive + duration, own := row.own + own, longest := Max(row.longest, duration))]
  }

  /** Row `k` has one more call in its times; nothing else has changed. */
  ghost predicate CallFinished(rows: seq<Row>, rows': seq<Row>, k: nat, duration: int, own: int) {
    && k < |rows| == |rows'|
    && (forall r :: 0 <= r < |rows| && r != k ==> rows'[r] == rows[r])
    && rows'[k].inclusive == rows[k].inclusive + duration
    && rows'[k].own == rows[k].own + own
    && rows'[k].longest >= rows[k].longest && rows'[k].longest >= duration && rows'[k].longest in {rows[k].longest, duration}
    && rows'[k].calls == rows[k].calls && rows'[k].parent == rows[k].parent
    && rows'[k].routine == rows[k].routine && rows'[k].name == rows[k].name
  }

  /** Row `k`, the one of these names under this parent, has one call more, or is new and without times; all others stay. */
  ghost predicate CallStarted(rows: seq<Row>, rows': seq<Row>, k: nat, parent: Option<nat>, routine: string, name: string) {
    && |rows| <= |rows'| && k < |rows'| && (forall r :: 0 <= r < |rows| && r != k ==> rows'[r] == rows[r])
    && rows'[k].parent == parent && rows'[k].routine == routine && rows'[k].name == name
    && if k < |rows| then
         && |rows'| == |rows| && rows'[k].calls == rows[k].calls + 1 && rows'[k].longest == rows[k].longest
         && rows'[k].inclusive == rows[k].inclusive && rows'[k].own == rows[k].own
       else
         && |rows'| == |rows| + 1 && rows'[k].calls == 1
         && rows'[k].inclusive == rows'[k].own == rows'[k].longest == 0
         && forall r :: r in rows ==> r.parent != parent || r.routine != routine || r.name != name
  }

  lemma ChargedMeans(rows: seq<Row>, k: nat, duration: int, own: int)
    requires k < |rows|
    ensures CallFinished(rows, Charged(rows, k, duration, own), k, duration, own)
  {
  }

  ghost predicate HandleValid(h: Handle, rows: seq<Row>, active: seq<Handle>, handles: set<Handle>, now: int)
    reads h
  {
    && h.row < |rows|
    && h.start <= now
    && (h.parent == null ==> rows[h.row].parent == None)
    && (h.parent != null ==>
          && h.parent in handles && h.parent.start <= h.start && h.parent != h
          && rows[h.row].parent == Some(h.parent.row))
    && ClosedWithin(h.closed, h.start, now)
    && h.covered == SettledCount(h.closed, Frontier(active, h, now))
  }

  /** The rows may gain times and new rows, but a row keeps its parent. */
  ghost predicate RowsExtend(rows: seq<Row>, rows': seq<Row>) {
    |rows| <= |rows'| && forall r :: 0 <= r < |rows| ==> rows'[r].parent == rows[r].parent
  }

  lemma OpenKeepsHandle(h: Handle, rows: seq<Row>, active: seq<Handle>, handles: set<Handle>, now: int,
                        rows': seq<Row>, child: Handle)
    requires HandleValid(h, rows, active, handles, now)
    requires RowsExtend(rows, rows') && now <= child.start
    requires forall c :: c in active ==> c.start <= now
    ensures HandleValid(h, rows', active + [child], handles + {child}, child.start)
  {
    assert (active + [child])[..|active|] == active;
    EarliestChildIs(active, h);
    forall t | t in Cover(h.closed) ensures t < now { ClosedCoverBound(h.closed, h.start, now, t); }
    assert Settled(h.closed, now) == Settled(h.closed, child.start);
  }

  lemma LaterKeepsHandle(h: Handle, rows: seq<Row>, active: seq<Handle>, handles: set<Handle>, now: int, t: int)
    requires HandleValid(h, rows, active, handles, now) && now <= t
    ensures HandleValid(h, rows, active, handles, t)
  {
    forall x | x in Cover(h.closed) ensures x < now { ClosedCoverBound(h.closed, h.start, now, x); }
    assert Settled(h.closed, now) == Settled(h.closed, t);
  }

  lemma CloseKeepsHandle(x: Handle, rows: seq<Row>, active: seq<Handle>, handles: set<Handle>, now: int,
                         rows': seq<Row>, h: Handle, t: int)
    requires HandleValid(x, rows, active, handles, now) && now <= t && RowsExtend(rows, rows')
    requires Distinct(active) && h in active && x != h.parent
    ensures HandleValid(x, rows', Without(active, h), handles, t)
  {
    FrontierWithout(active, h, x);
    LaterKeepsHandle(x, rows, Without(active, h), handles, now, t);
  }

  /** What `child_closed` adds to `covered` is what the parent's settled ticks gain. */
  lemma CloseSettlesParent(closed: seq<Interval>, from: int, active: seq<Handle>, now: int, h: Handle, t: int)
    requires ClosedWithin(closed, from, now) && from <= h.start <= now <= t
    requires Distinct(active) && h in active && h.parent != null
    requires forall c :: c in active ==> c.start <= now
    ensures var f, g := Frontier(active, h.parent, now), Frontier(Without(active, h), h.parent, t);
            SettledCount(closed + [Interval(h.start, t)], g) == SettledCount(closed, f) + Max(0, Min(t, g) - h.start)
  {
    hide EarliestChild, Without, Cover, Settled, SettledCount, ClosedWithin, Distinct;
    var f, g := Frontier(active, h.parent, now), Frontier(Without(active, h), h.parent, t);
    assert f <= h.start && f <= g <= t && (f < g ==> f == h.start) by {
      FrontierWithout(active, h, h.parent);
      EarliestChildIs(Without(active, h), h.parent);
      WithoutIs(active, h);
    }
    SettledStep(closed, f, h.start, t, g);
  }

  class Trace {
    const maxSpans: int
    var rows: seq<Row>
    var active: seq<Handle>
    var truncated: bool
    var ended: Option<int>
    ghost var now: int
    ghost var handles: set<Handle>

    function Innermost(): Handle?
      reads this
    {
      if active == [] then null else active[|active| - 1]
    }

    /** One thread, with the rows' times in balance. */
    ghost predicate Nested()
      reads this, active
    {
      Stacked(active) && Balanced(rows, active, Coverages(active))
    }

    ghost predicate RowsValid()
      reads this
    {
      |rows| <= Max(0, maxSpans) && ParentsFirst(rows)
    }

    ghost predicate ActiveValid()
      reads this
    {
      && |active| <= MAX_ACTIVE
      && Distinct(active)
      && forall h :: h in active ==> h in handles
    }

    /** What every interleaving of opens and closes keeps. */
    ghost predicate Valid()
      reads this, handles
    {
      RowsValid() && ActiveValid() && forall h :: h in handles ==> HandleValid(h, rows, active, handles, now)
    }

    constructor (maxSpans: int, t: int)
      ensures Valid() && Nested()
      ensures rows == [] && active == [] && handles == {} && ended == None && now == t && this.maxSpans == maxSpans
    {
      this.maxSpans := maxSpans;
      rows, active, truncated, ended := [], [], false, None;
      now, handles := t, {};
    }

    /** Every tick before `t` that some child of `h`, closed or running, occupies. */
    ghost function ChildTicks(h: Handle, t: int): set<int>
      reads this, h
    {
      Cover(h.closed) + Cover(RunningChildren(active, h, t))
    }

    /** `covered` plus the running union is the exact size of the union of all child intervals. */
    lemma CoverageIsExact(h: Handle, t: int)
      requires Valid() && h in handles && now <= t
      ensures |ChildTicks(h, t)| == h.covered + |Cover(RunningChildren(active, h, t))|
      ensures ChildTicks(h, t) <= Ticks(h.start, t)
    {
      assert HandleValid(h, rows, active, handles, now);
      RunningCover(active, h, t);
      EarliestChildIs(active, h);
      if EarliestChild(active, h).Some? {
        var c :| c in active && c.parent == h && c.start == EarliestChild(active, h).value;
        assert HandleValid(c, rows, active, handles, now);
      }
      hide Ticks, Cover, RunningChildren, EarliestChild;
      CoverageSplit(h.closed, Cover(RunningChildren(active, h, t)), Frontier(active, h, now), h.start, now, t);
    }

    /** The time `h` spent in no child, by definition. */
    ghost function OwnTicks(h: Handle, t: int): int
      reads this, h
    {
      |Ticks(h.start, t) - ChildTicks(h, t)|
    }

    lemma OwnTicksFormula(h: Handle, t: int)
      requires Valid() && h in handles && now <= t
      ensures OwnTicks(h, t) == t - h.start - h.covered - |Cover(RunningChildren(active, h, t))|
    {
      CoverageIsExact(h, t);
      assert HandleValid(h, rows, active, handles, now);
      DisjointUnionCount(Ticks(h.start, t) - ChildTicks(h, t), ChildTicks(h, t));
      assert Ticks(h.start, t) - ChildTicks(h, t) + ChildTicks(h, t) == Ticks(h.start, t);
    }

    /** What `_Handle.own` yields at any clock reading, one before the last event included. */
    ghost function Shown(h: Handle, n: int): int
      reads this, h
    {
      Max(0, n - h.start - h.covered - |Cover(RunningChildren(active, h, n))|)
    }

    /** `_Handle.own`: exact, and never clipped, at any clock reading not before the last event. */
    method Own(h: Handle, t: int) returns (ns: int)
      requires Valid() && h in handles
      ensures ns == Shown(h, t)
      ensures now <= t ==> ns == OwnTicks(h, t)
      ensures now <= t ==> ns == t - h.start - h.covered - |Cover(RunningChildren(active, h, t))|
    {
      var union := IntervalUnion(RunningChildren(active, h, t));
      ns := Max(0, t - h.start - h.covered - union);
      if now <= t { OwnTicksFormula(h, t); }
    }

    /** The ticks of closed children before the frontier lie between the start of `h` and the frontier. */
    lemma CoveredBound(h: Handle)
      requires Valid() && h in handles
      ensures h.start <= Frontier(active, h, now) <= now
      ensures 0 <= h.covered <= Frontier(active, h, now) - h.start
    {
      assert HandleValid(h, rows, active, handles, now);
      EarliestChildIs(active, h);
      if EarliestChild(active, h).Some? {
        var c :| c in active && c.parent == h && c.start == EarliestChild(active, h).value;
        assert HandleValid(c, rows, active, handles, now);
      }
      hide EarliestChild, Cover;
      SettledBound(h.closed, h.start, now, Frontier(active, h, now));
    }

    /** Starts a handle on row `k`, the recorded half of `Open`. */
    method Record(parent: Handle?, k: nat, blank: Row, t: int) returns (h: Handle)
      requires Valid() && now <= t && |active| < MAX_ACTIVE
      requires parent != null ==> parent in handles
      requires k <= |rows| && blank.parent == RowOf(parent)
      requires if k < |rows| then rows[k].parent == RowOf(parent) else |rows| < maxSpans
      modifies this
      ensures Valid() && now == t && ended == old(ended) && truncated == old(truncated)
      ensures fresh(h) && h.parent == parent && h.row == k && h.start == t && h.covered == 0 && h.closed == []
      ensures active == old(active) + [h] && handles == old(handles) + {h}
      ensures rows == Entered(old(rows), k, blank)
    {
      h := new Handle(parent, k, t);
      ghost var rows', active', handles', now' := rows, active, handles, now;
      assert parent != null ==> HandleValid(parent, rows, active, handles, now);
      rows := Entered(rows, k, blank);
      active := active + [h];
      handles := handles + {h};
      now := t;
      forall x | x in handles ensures HandleValid(x, rows, active, handles, now) {
        if x != h { OpenKeepsHandle(x, rows', active', handles', now', rows, h); }
      }
    }

    /** Entering a span; null is the handle that records nothing. */
    method Open(parent: Handle?, routine: string, name: string, t: int) returns (h: Handle?)
      requires Valid() && now <= t
      requires parent != null ==> parent in handles
      modifies this
      ensures Valid() && now == t && ended == old(ended)
      ensures h == null ==> truncated && rows == old(rows) && active == old(active) && handles == old(handles)
      ensures h == null <==>
              || |old(active)| >= MAX_ACTIVE
              || (|old(rows)| >= maxSpans && FindRow(old(rows), RowOf(parent), routine, name).None?)
      ensures h != null ==>
              && fresh(h) && h.parent == parent && h.start == t && h.covered == 0 && h.closed == []
              && active == old(active) + [h] && handles == old(handles) + {h}
              && truncated == old(truncated)
              && h.row == FindRow(old(rows), RowOf(parent), routine, name).GetOr(|old(rows)|)
              && rows == Entered(old(rows), h.row, Row(RowOf(parent), routine, name, 0, 0, 0, 0))
              && CallStarted(old(rows), rows, h.row, RowOf(parent), routine, name)
    {
      var found := FindRow(rows, RowOf(parent), routine, name);
      if |active| >= MAX_ACTIVE || (found.None? && |rows| >= maxSpans) {
        forall x | x in handles ensures HandleValid(x, rows, active, handles, t) {
          LaterKeepsHandle(x, rows, active, handles, now, t);
        }
        truncated, now := true, t;
        h := null;
      } else {
        h := Record(parent, found.GetOr(|rows|), Row(RowOf(parent), routine, name, 0, 0, 0, 0), t);
      }
    }

    /**
     * `_Handle.child_closed`, after the child has left the active list: if `covered` counted the closed ticks
     * before a frontier `f` that only this child's leaving may have moved, it counts those before the new one.
     */
    method ChildClosed(h: Handle, start: int, end: int)
      modifies h
      ensures h.closed == old(h.closed) + [Interval(start, end)]
      ensures h.covered == old(h.covered) + Max(0, Min(end, Frontier(active, h, end)) - start)
      ensures forall f ::
                old(h.covered) == SettledCount(old(h.closed), f) && f <= start <= end &&
                f <= Frontier(active, h, end) <= end && (f < Frontier(active, h, end) ==> f == start) ==>
                  h.covered == SettledCount(h.closed, Frontier(active, h, end))
    {
      ghost var g := Frontier(active, h, end);
      forall f | old(h.covered) == SettledCount(old(h.closed), f) && f <= start <= end && f <= g <= end &&
                 (f < g ==> f == start)
        ensures SettledCount(h.closed + [Interval(start, end)], g) == h.covered + Max(0, Min(end, g) - start)
      {
        SettledStep(h.closed, f, start, end, g);
      }
      h.covered := h.covered + Max(0, Min(end, Frontier(active, h, end)) - start);
      h.closed := h.closed + [Interval(start, end)];
    }

    /** Charges the row of `h`, takes `h` off the active list and tells its parent. */
    method Retire(h: Handle, t: int, own: int)
      requires Valid() && h in active && now <= t && h.row < |rows|
      modifies this, h.parent
      ensures Valid() && now == t && handles == old(handles)
      ensures ended == old(ended) && truncated == old(truncated)
      ensures active == Without(old(active), h)
      ensures rows == Charged(old(rows), h.row, t - h.start, own)
      ensures CallFinished(old(rows), rows, h.row, t - h.start, own)
      ensures h.parent != null ==>
              && h.parent.closed == old(h.parent.closed) + [Interval(h.start, t)]
              && h.parent.covered == old(h.parent.covered) + Max(0, Min(t, Frontier(active, h.parent, t)) - h.start)
    {
      hide EarliestChild, Frontier, Without, Cover, Settled, SettledCount, Charged, Max, Min, CallFinished;
      ghost var rows', active', now' := rows, active, now;
      assert forall c :: c in active' ==> HandleValid(c, rows, active, handles, now);
      assert forall c :: c in active' ==> c.start <= now';
      ChargedMeans(rows, h.row, t - h.start, own);
      rows := Charged(rows, h.row, t - h.start, own);
      active := Without(active, h);
      now := t;
      if h.parent != null {
        assert HandleValid(h.parent, rows', active', handles, now');
        ghost var grown, g := h.parent.closed + [Interval(h.start, t)], Frontier(active, h.parent, t);
        assert
          && SettledCount(grown, g) == h.parent.covered + Max(0, Min(t, g) - h.start)
          && ClosedWithin(grown, h.parent.start, t) by {
          CloseSettlesParent(h.parent.closed, h.parent.start, active', now', h, t);
        }
        ChildClosed(h.parent, h.start, t);
        assert h.parent.closed == grown && h.parent.covered == SettledCount(grown, g);
        assert HandleValid(h.parent, rows, active, handles, now);
      }
      forall x | x in handles ensures HandleValid(x, rows, active, handles, now) {
        if x != h.parent { CloseKeepsHandle(x, rows', active', handles, now', rows, h, t); }
      }
      WithoutIs(active', h);
      assert forall x :: x in active ==> x in active';
    }

    /** Leaving a span. */
    method Close(h: Handle, t: int)
      requires Valid() && h in active && now <= t
      modifies this, h.parent
      ensures Valid() && now == t && handles == old(handles) && ended == old(ended) && truncated == old(truncated)
      ensures active == Without(old(active), h)
      ensures h.row < |old(rows)| && rows == Charged(old(rows), h.row, t - h.start, old(OwnTicks(h, t)))
      ensures CallFinished(old(rows), rows, h.row, t - h.start, old(OwnTicks(h, t)))
      ensures h.parent != null ==>
              && h.parent.closed == old(h.parent.closed) + [Interval(h.start, t)]
              && h.parent.covered == old(h.parent.covered) + Max(0, Min(t, Frontier(active, h.parent, t)) - h.start)
    {
      var own := Own(h, t);
      assert HandleValid(h, rows, active, handles, now);
      Retire(h, t, own);
    }

    lemma RowsInUse()
      requires Valid()
      ensures forall x :: x in active ==> x.row < |rows|
      ensures forall r :: 0 <= r < |rows| ==> rows[r].parent != Some(|rows|)
    {
      assert forall x :: x in active ==> HandleValid(x, rows, active, handles, now);
    }

    /** `with span(...)` on a single thread: the parent is the innermost open span. */
    method Enter(routine: string, name: string, t: int) returns (h: Handle?)
      requires Valid() && Nested() && now <= t
      modifies this
      ensures Valid() && Nested() && now == t && ended == old(ended)
      ensures h == null <==>
              || |old(active)| >= MAX_ACTIVE
              || (|old(rows)| >= maxSpans && FindRow(old(rows), RowOf(old(Innermost())), routine, name).None?)
      ensures h == null ==> truncated && rows == old(rows) && active == old(active)
      ensures h != null ==>
              && fresh(h) && h.parent == old(Innermost()) && h.start == t && h.covered == 0
              && active == old(active) + [h] && truncated == old(truncated)
              && h.row == FindRow(old(rows), RowOf(h.parent), routine, name).GetOr(|old(rows)|)
              && rows == Entered(old(rows), h.row, Row(RowOf(h.parent), routine, name, 0, 0, 0, 0))
              && CallStarted(old(rows), rows, h.row, RowOf(h.parent), routine, name)
    {
      hide HandleValid, EarliestChild, Coverages, RowSum, InclusiveUnder;
      ghost var rows', active', covered := rows, active, Coverages(active);
      var parent := Innermost();
      RowsInUse();
      h := Open(parent, routine, name, t);
      if h != null {
        EnteredKeepsBalance(rows', h.row, Row(RowOf(parent), routine, name, 0, 0, 0, 0), active', covered, h);
        assert Coverages(active) == covered + [0];
      }
    }

    /** A call on record is in a row below that of the call around it. */
    lemma EnteredRow(h: Handle)
      requires Valid() && h in active
      ensures h.row < |rows| && rows[h.row].parent == RowOf(h.parent)
      ensures h.parent != null ==> h.parent.row < h.row
    {
      assert HandleValid(h, rows, active, handles, now);
    }

    lemma InnermostFacts(h: Handle, t: int)
      requires Valid() && Stacked(active) && active != [] && h == Innermost() && now <= t
      ensures h.row < |rows| && h.start <= t && rows[h.row].parent == RowOf(h.parent)
      ensures h.parent == if |active| == 1 then null else active[|active| - 2]
      ensures OwnTicks(h, t) == t - h.start - h.covered
    {
      assert h in active && HandleValid(h, rows, active, handles, now);
      InnermostIsChildless(active, h, |active| - 1);
      OwnTicksFormula(h, t);
      RunningCover(active, h, t);
    }

    /** The stack below the innermost span `h` is a stack, and nothing runs in the span around `h`. */
    lemma LeaveKeepsStack(active': seq<Handle>, h: Handle, t: int)
      requires Distinct(active') && Stacked(active') && active' != [] && h == active'[|active'| - 1]
      requires active == Without(active', h)
      ensures Stacked(active) && active == active'[..|active'| - 1] && active' == active + [h]
      ensures h.parent == (if active == [] then null else active[|active| - 1])
      ensures h.parent != null ==> h.parent in active && Frontier(active, h.parent, t) == t
    {
      var n := |active'| - 1;
      WithoutIs(active', h);
      WithoutLast(active');
      if n > 0 {
        assert h.parent == active[n - 1];
        InnermostIsChildless(active, h.parent, n - 1);
      }
    }

    /** The state after the innermost span `h` has closed is balanced if the state before it was. */
    lemma LeaveKeepsNested(active': seq<Handle>, covered: seq<int>, rows': seq<Row>, h: Handle, t: int)
      requires |covered| == |active'| && Balanced(rows', active', covered)
      requires Distinct(active) && Stacked(active) && active' == active + [h] && h.start <= t
      requires h.parent == (if active == [] then null else active[|active| - 1])
      requires h.row < |rows'| && rows'[h.row].parent == RowOf(h.parent)
      requires rows == Charged(rows', h.row, t - h.start, t - h.start - covered[|active|])
      requires forall k :: 0 <= k < |active| && active[k] != h.parent ==> active[k].covered == covered[k]
      requires forall k :: 0 <= k < |active| && active[k] == h.parent ==> active[k].covered == covered[k] + t - h.start
      ensures Nested()
    {
      hide Charged, Entered, Stacked;
      ChargedKeepsBalance(rows', active, covered, h, t - h.start, t - h.start - covered[|active|], rows, Coverages(active));
    }

    /** Leaving the innermost span: its row gains the exact own time, the span around it the whole time. */
    method Leave(t: int)
      requires Valid() && Nested() && active != [] && now <= t
      modifies this, active
      ensures Valid() && Nested() && now == t && ended == old(ended) && truncated == old(truncated)
      ensures active == old(active)[..|old(active)| - 1]
      ensures var h := old(Innermost());
              && h.row < |old(rows)| && old(OwnTicks(h, t)) == t - h.start - old(h.covered)
              && rows == Charged(old(rows), h.row, t - h.start, old(OwnTicks(h, t)))
              && CallFinished(old(rows), rows, h.row, t - h.start, old(OwnTicks(h, t)))
              && (h.parent != null ==> h.parent in active && h.parent.covered == old(h.parent.covered) + t - h.start)
    {
      hide HandleValid, EarliestChild, Frontier, Without, Charged, Balanced, Stacked, Cover, RunningChildren, Distinct, OwnTicks,
        ChildTicks, ParentsFirst, CallFinished;
      var h := active[|active| - 1];
      ghost var rows', active', covered := rows, active, Coverages(active);
      InnermostFacts(h, t);
      Close(h, t);
      LeaveKeepsStack(active', h, t);
      LeaveKeepsNested(active', covered, rows', h, t);
    }

    method Finish(t: int)
      requires Valid() && now <= t
      modifies this
      ensures Valid() && now == t && ended == Some(t)
      ensures rows == old(rows) && active == old(active) && handles == old(handles)
      ensures old(Nested()) ==> Nested()
    {
      forall x | x in handles ensures HandleValid(x, rows, active, handles, t) {
        LaterKeepsHandle(x, rows, active, handles, now, t);
      }
      ended, now := Some(t), t;
    }

    /** The clock reading a snapshot uses: the finishing time, unless that is missing or zero. */
    function SnapshotTime(t: int): int
      reads this
    {
      if ended.Some? && ended.value != 0 then ended.value else t
    }

    ghost function ShownOwns(hs: seq<Handle>, n: int): (owns: seq<int>)
      reads this, hs
      ensures |owns| == |hs| && forall k :: 0 <= k < |hs| ==> owns[k] == Shown(hs[k], n)
    {
      seq(|hs|, k requires 0 <= k < |hs| reads this, hs => Shown(hs[k], n))
    }

    /** One row of a snapshot: its finished calls and those still running at `n`. */
    method RunningRow(r: nat, n: int) returns (item: Row)
      requires Valid() && r < |rows|
      ensures ShowsRow(item, rows[r], r, active, Times(active, n), ShownOwns(active, n))
    {
      hide HandleValid, Distinct, ParentsFirst, OwnTicks, ChildTicks, Times, Shown, ShownOwns;
      ghost var times, owns := Times(active, n), ShownOwns(active, n);
      item := rows[r];
      for k := 0 to |active|
        invariant ShowsRow(item, rows[r], r, active[..k], times[..k], owns[..k])
      {
        var h := active[k];
        RowSumStep(active, times, k, r);
        RowSumStep(active, owns, k, r);
        RowMaxStep(active, times, k, r, rows[r].longest);
        if h.row == r {
          var own := Own(h, n);
          item := item.(inclusive := item.inclusive + n - h.start, own := item.own + own,
                        longest := Max(item.longest, n - h.start));
        }
      }
      assert active[..|active|] == active && times[..|active|] == times && owns[..|active|] == owns;
    }

    method RowsAt(n: int) returns (snap: seq<Row>)
      requires Valid()
      ensures Shows(snap, rows, active, Times(active, n), ShownOwns(active, n))
    {
      hide HandleValid, RowSum, RowMax, ShowsRow, Distinct, ParentsFirst, Shown, Times, ShownOwns;
      ghost var times, owns := Times(active, n), ShownOwns(active, n);
      snap := [];
      for r := 0 to |rows|
        invariant |snap| == r
        invariant forall q :: 0 <= q < r ==> ShowsRow(snap[q], rows[q], q, active, times, owns)
      {
        var item := RunningRow(r, n);
        snap := snap + [item];
      }
    }

    /** The clock reading `n` is timely for every call on the stack. */
    ghost predicate Timely(n: int)
      reads this, active
    {
      forall i :: 0 <= i < |active| ==> TimelyAt(active, i, n)
    }

    /**
     * `snapshot`, at any state and clock reading: every row shows its finished calls plus what its running
     * ones have, exactly while no event is later than the reading.  With one thread the shown times are
     * conserved if and only if the reading is timely.
     */
    method Snapshot(t: int) returns (snap: seq<Row>)
      requires Valid() && now <= t
      ensures Shows(snap, rows, active, Times(active, SnapshotTime(t)), ShownOwns(active, SnapshotTime(t)))
      ensures now <= SnapshotTime(t) ==>
                forall h :: h in active ==> Shown(h, SnapshotTime(t)) == OwnTicks(h, SnapshotTime(t))
      ensures Nested() ==> ParentsFirst(snap) && (Conserved(snap) <==> Timely(SnapshotTime(t)))
      ensures Nested() && now <= SnapshotTime(t) ==> Conserved(snap)
    {
      hide HandleValid, Conserved, Shows, Balanced, Stacked, Times, ShownOwns, OwnTicks, Shown, ParentsFirst, Timely;
      var n := SnapshotTime(t);
      snap := RowsAt(n);
      if now <= n { ShownIsExact(n); }
      if Nested() { SnapshotIsConserved(n, snap); }
    }

    lemma ShownIsExact(n: int)
      requires Valid() && now <= n
      ensures forall h :: h in active ==> Shown(h, n) == OwnTicks(h, n)
      ensures Timely(n)
    {
      forall h | h in active ensures Shown(h, n) == OwnTicks(h, n) { OwnTicksFormula(h, n); }
      forall i | 0 <= i < |active| ensures TimelyAt(active, i, n) {
        CoveredBound(active[i]);
        if i + 1 < |active| { CoveredBound(active[i + 1]); }
      }
    }

    /** By how much each shown own time of a stack is off. */
    ghost function Off(n: int): (off: seq<int>)
      reads this, active
      ensures |off| == |active| && forall i :: 0 <= i < |active| ==>
                off[i] == Times(active, n)[i] - Coverages(active)[i] - Next(Times(active, n), i) - ShownOwns(active, n)[i]
    {
      seq(|active|, i requires 0 <= i < |active| reads this, active =>
        Times(active, n)[i] - Coverages(active)[i] - Next(Times(active, n), i) - ShownOwns(active, n)[i])
    }

    lemma StackedShown(i: nat, n: int)
      requires Valid() && Stacked(active) && i < |active|
      ensures Shown(active[i], n) == Max(0, n - active[i].start - active[i].covered -
                                            if i + 1 < |active| then Max(0, n - active[i + 1].start) else 0)
    {
      RunningCover(active, active[i], n);
      StackedChild(active, i);
    }

    lemma StackedOff(i: nat, n: int)
      requires Valid() && Stacked(active) && i < |active|
      ensures Off(n)[i] == 0 <==> TimelyAt(active, i, n)
    {
      CoveredBound(active[i]);
      StackedChild(active, i);
      StackedShown(i, n);
      hide Valid, EarliestChild, Shown, Stacked;
    }

    lemma RowsAreMatched()
      requires Valid()
      ensures RowsMatch(rows, active) && ParentsFirst(rows)
    {
      forall h | h in active ensures h.row < |rows| && rows[h.row].parent == RowOf(h.parent) {
        assert HandleValid(h, rows, active, handles, now);
      }
    }

    lemma SnapshotIsConserved(n: int, snap: seq<Row>)
      requires Valid() && Nested()
      requires Shows(snap, rows, active, Times(active, n), ShownOwns(active, n))
      ensures ParentsFirst(snap) && (Conserved(snap) <==> Timely(n))
    {
      RowsAreMatched();
      forall i | 0 <= i < |active| ensures Off(n)[i] == 0 <==> TimelyAt(active, i, n) { StackedOff(i, n); }
      hide Valid, Distinct, Times, ShownOwns, Coverages, Stacked, Balanced, Shows, RowsMatch, ParentsFirst, Conserved,
        TimelyAt, Next, Off;
      SameParentsFirst(rows, snap, active, Times(active, n), ShownOwns(active, n));
      SnapshotConserved(rows, active, Times(active, n), Coverages(active), ShownOwns(active, n), Off(n), snap);
    }
  }

  /**
   * The reading `n` is late enough for call `i` of a stack: a call around another one either sees that one
   * started, or was covered all the way to its start; the innermost call has run as long as its children.
   */
  ghost predicate TimelyAt(hs: seq<Handle>, i: nat, n: int)
    requires i < |hs|
    reads hs
  {
    if i + 1 < |hs| then hs[i + 1].start <= n || hs[i].covered == hs[i + 1].start - hs[i].start
    else hs[i].start + hs[i].covered <= n
  }

  lemma SameParentsFirst(rows: seq<Row>, snap: seq<Row>, hs: seq<Handle>, times: seq<int>, owns: seq<int>)
    requires |times| == |owns| == |hs| && ParentsFirst(rows) && Shows(snap, rows, hs, times, owns)
    ensures ParentsFirst(snap)
  {
    assert forall r :: 0 <= r < |rows| ==> ShowsRow(snap[r], rows[r], r, hs, times, owns);
  }

  lemma StackedChild(active: seq<Handle>, i: nat)
    requires Distinct(active) && Stacked(active) && i < |active|
    ensures EarliestChild(active, active[i]) == if i + 1 < |active| then Some(active[i + 1].start) else None
  {
    EarliestChildIs(active, active[i]);
    if i + 1 == |active| {
      InnermostIsChildless(active, active[i], i);
    } else {
      assert active[i + 1].parent == active[i];
      forall k | 0 <= k < |active| && active[k].parent == active[i] ensures k == i + 1 {
        if k > 0 { assert active[k].parent == active[k - 1]; }
      }
    }
  }

  ghost function Times(hs: seq<Handle>, n: int): (times: seq<int>)
    ensures |times| == |hs| && forall k :: 0 <= k < |hs| ==> times[k] == n - hs[k].start
  {
    seq(|hs|, k requires 0 <= k < |hs| => n - hs[k].start)
  }

  /** One call of a traced routine, with the calls it makes in turn. */
  datatype Call = Call(routine: string, name: string, begin: int, calls: seq<Call>, end: int)

  /** The clock readings of the calls, one call after the other, do not decrease. */
  ghost predicate Timed(calls: seq<Call>, from: int, to: int) {
    if calls == [] then from <= to else
      var n := |calls| - 1;
      && Timed(calls[..n], from, calls[n].begin)
      && Timed(calls[n].calls, calls[n].begin, calls[n].end)
      && calls[n].end <= to
  }

  // ----- What a run adds up to

  function Spans(calls: seq<Call>): seq<Interval> {
    if calls == [] then [] else
      Spans(calls[..|calls| - 1]) + [Interval(calls[|calls| - 1].begin, calls[|calls| - 1].end)]
  }

  /** All calls of the tree. */
  function CallCount(calls: seq<Call>): nat {
    if calls == [] then 0 else CallCount(calls[..|calls| - 1]) + 1 + CallCount(calls[|calls| - 1].calls)
  }

  ghost function Lengths(ivs: seq<Interval>): int {
    if ivs == [] then 0 else Lengths(ivs[..|ivs| - 1]) + ivs[|ivs| - 1].stop - ivs[|ivs| - 1].start
  }

  lemma {:induction false} LengthsConcat(a: seq<Interval>, b: seq<Interval>)
    ensures Lengths(a + b) == Lengths(a) + Lengths(b)
  {
    if b == [] {
      assert a + b == a;
    } else {
      LengthsConcat(a, b[..|b| - 1]);
      assert (a + b)[..|a + b| - 1] == a + b[..|b| - 1];
    }
  }

  /** The calls counted over all rows. */
  ghost function CallsOf(rows: seq<Row>): nat {
    if rows == [] then 0 else CallsOf(rows[..|rows| - 1]) + rows[|rows| - 1].calls
  }

  lemma {:induction false} CallsUpdate(rows: seq<Row>, k: nat, row: Row)
    requires k < |rows|
    ensures CallsOf(rows[k := row]) == CallsOf(rows) - rows[k].calls + row.calls
  {
    var n := |rows| - 1;
    if k == n {
      assert rows[k := row][..n] == rows[..n];
    } else {
      assert rows[k := row][..n] == rows[..n][k := row];
      CallsUpdate(rows[..n], k, row);
    }
  }

  /** A started call adds to the calls of its row and to no time. */
  lemma StartedSums(rows: seq<Row>, rows': seq<Row>, k: nat, parent: Option<nat>, routine: string, name: string)
    requires CallStarted(rows, rows', k, parent, routine, name) && k <= |rows|
    requires k < |rows| ==> rows[k].parent == parent
    ensures CallsOf(rows') == CallsOf(rows) + 1
    ensures forall p :: InclusiveUnder(rows', p) == InclusiveUnder(rows, p)
  {
    if k < |rows| {
      assert rows' == rows[k := rows'[k]];
      CallsUpdate(rows, k, rows'[k]);
      forall p ensures InclusiveUnder(rows', p) == InclusiveUnder(rows, p) { UnderUpdate(rows, k, rows'[k], p); }
    } else {
      assert rows' == rows + [rows'[k]] && rows'[..|rows|] == rows;
    }
  }

  /** A finished call adds its duration to the time under the row around it. */
  lemma FinishedSums(rows: seq<Row>, rows': seq<Row>, k: nat, duration: int, own: int, p: Option<nat>)
    requires CallFinished(rows, rows', k, duration, own) && rows[k].parent == p
    ensures CallsOf(rows') == CallsOf(rows)
    ensures forall q :: InclusiveUnder(rows', q) == InclusiveUnder(rows, q) + if q == p then duration else 0
  {
    assert rows' == rows[k := rows'[k]];
    CallsUpdate(rows, k, rows'[k]);
    forall q ensures InclusiveUnder(rows', q) == InclusiveUnder(rows, q) + if q == p then duration else 0 {
      UnderUpdate(rows, k, rows'[k], q);
    }
  }

  /** `q` is the row of a call around those of row `p`, or of none. */
  predicate Around(q: Option<nat>, p: Option<nat>) {
    p.Some? && (q.None? || q.value < p.value)
  }

  /** Nothing has been added under the calls around those of row `p`. */
  ghost predicate AroundKept(rows: seq<Row>, rows': seq<Row>, p: Option<nat>) {
    forall q :: Around(q, p) ==> InclusiveUnder(rows', q) == InclusiveUnder(rows, q)
  }

  /**
   * Traced calls on one thread, each within `with span(...)`.  Those recorded directly under the innermost open span
   * are `tops`; they include what a dropped call makes, and are all of `calls` if none was dropped.
   */
  method Perform(trace: Trace, calls: seq<Call>, ghost from: int, ghost to: int) returns (ghost tops: seq<Interval>)
    requires trace.Valid() && trace.Nested() && trace.now <= from && Timed(calls, from, to)
    modifies trace, trace.active
    ensures trace.Valid() && trace.Nested() && trace.now <= to
    ensures trace.active == old(trace.active) && trace.ended == old(trace.ended)
    ensures var p := RowOf(old(trace.Innermost()));
            && InclusiveUnder(trace.rows, p) == InclusiveUnder(old(trace.rows), p) + Lengths(tops)
            && AroundKept(old(trace.rows), trace.rows, p)
    ensures old(trace.truncated) ==> trace.truncated
    ensures !trace.truncated ==> tops == Spans(calls) && CallsOf(trace.rows) == CallsOf(old(trace.rows)) + CallCount(calls)
    decreases calls
  {
    hide Trace.Valid, Trace.Nested, CallStarted, InclusiveUnder, CallsOf, Entered;
    tops := [];
    if calls != [] {
      var n := |calls| - 1;
      tops := Perform(trace, calls[..n], from, calls[n].begin);
      ghost var more := PerformCall(trace, calls[n]);
      LengthsConcat(tops, more);
      tops := tops + more;
    }
  }

  /** One traced call. */
  method PerformCall(trace: Trace, call: Call) returns (ghost tops: seq<Interval>)
    requires trace.Valid() && trace.Nested() && trace.now <= call.begin && Timed(call.calls, call.begin, call.end)
    modifies trace, trace.active
    ensures trace.Valid() && trace.Nested() && trace.now <= call.end
    ensures trace.active == old(trace.active) && trace.ended == old(trace.ended)
    ensures var p := RowOf(old(trace.Innermost()));
            && InclusiveUnder(trace.rows, p) == InclusiveUnder(old(trace.rows), p) + Lengths(tops)
            && AroundKept(old(trace.rows), trace.rows, p)
    ensures old(trace.truncated) ==> trace.truncated
    ensures !trace.truncated ==>
              && tops == [Interval(call.begin, call.end)]
              && CallsOf(trace.rows) == CallsOf(old(trace.rows)) + 1 + CallCount(call.calls)
    decreases call
  {
    hide Trace.Valid, Trace.Nested, CallStarted, CallFinished, InclusiveUnder, CallsOf, Entered, Charged, Timed, AroundKept,
      Trace.OwnTicks, CallCount, Lengths, FindRow;
    ghost var rows, p := trace.rows, RowOf(trace.Innermost());
    var h := trace.Enter(call.routine, call.name, call.begin);
    ghost var entered := trace.rows;
    if h == null {
      tops := Perform(trace, call.calls, call.begin, call.end);
    } else {
      trace.EnteredRow(h);
      tops := Perform(trace, call.calls, call.begin, call.end);
      ghost var performed, own := trace.rows, trace.OwnTicks(h, call.end);
      trace.EnteredRow(h);
      trace.Leave(call.end);
      CallSums(rows, entered, performed, trace.rows, p, h.row, call, own);
      tops := [Interval(call.begin, call.end)];
    }
  }

  /** From entering a call to leaving it, with the calls it makes in between. */
  lemma CallSums(rows: seq<Row>, entered: seq<Row>, performed: seq<Row>, left: seq<Row>, p: Option<nat>, k: nat,
                 call: Call, own: int)
    requires CallStarted(rows, entered, k, p, call.routine, call.name) && k <= |rows| && (k < |rows| ==> rows[k].parent == p)
    requires AroundKept(entered, performed, Some(k)) && Around(p, Some(k))
    requires CallFinished(performed, left, k, call.end - call.begin, own) && performed[k].parent == p
    ensures InclusiveUnder(left, p) == InclusiveUnder(rows, p) + Lengths([Interval(call.begin, call.end)])
    ensures AroundKept(rows, left, p) && CallsOf(entered) == CallsOf(rows) + 1 && CallsOf(left) == CallsOf(performed)
  {
    hide InclusiveUnder, CallsOf, CallStarted, CallFinished;
    StartedSums(rows, entered, k, p, call.routine, call.name);
    FinishedSums(performed, left, k, call.end - call.begin, own, p);
    assert Lengths([Interval(call.begin, call.end)]) == call.end - call.begin;
  }

  /**
   * A whole traced run on one thread: the times it reports are conserved, row by row and over every subtree, and the
   * rows without a parent take the durations of the outermost calls on record, which are all unless some were dropped.
   */
  method Run(maxSpans: int, start: int, calls: seq<Call>, t: int)
    returns (snap: seq<Row>, truncated: bool, ghost tops: seq<Interval>)
    requires Timed(calls, start, t)
    ensures ParentsFirst(snap) && Conserved(snap)
    ensures forall r :: 0 <= r < |snap| ==> SubtreeOwn(snap, r, |snap|) == snap[r].inclusive
    ensures InclusiveUnder(snap, None) == Lengths(tops)
    ensures !truncated ==> tops == Spans(calls) && CallsOf(snap) == CallCount(calls)
  {
    hide Trace.Valid, Trace.Nested, InclusiveUnder, CallsOf;
    var trace := new Trace(maxSpans, start);
    NothingSums();
    tops := Perform(trace, calls, start, t);
    snap := trace.Snapshot(t);
    truncated := trace.truncated;
    NothingRuns(snap, trace.rows, trace.active, Times(trace.active, trace.SnapshotTime(t)),
                trace.ShownOwns(trace.active, trace.SnapshotTime(t)));
    forall r | 0 <= r < |snap| ensures SubtreeOwn(snap, r, |snap|) == snap[r].inclusive {
      SubtreeConservation(snap, r);
    }
  }

  lemma NothingSums()
    ensures InclusiveUnder([], None) == 0 && CallsOf([]) == 0
  {
  }

  /** With no active handle a snapshot shows the rows as they are. */
  lemma NothingRuns(snap: seq<Row>, rows: seq<Row>, hs: seq<Handle>, times: seq<int>, owns: seq<int>)
    requires |times| == |owns| == |hs| == 0 && Shows(snap, rows, hs, times, owns)
    ensures snap == rows
  {
    forall r | 0 <= r < |rows| ensures snap[r] == rows[r] { assert ShowsRow(snap[r], rows[r], r, hs, times, owns); }
  }

  /** What a snapshot before the start of the only call on record shows. */
  lemma OneLateCall(snap: seq<Row>, rows: seq<Row>, hs: seq<Handle>, times: seq<int>, owns: seq<int>)
    requires |times| == |owns| == |hs| == 1 && hs[0].row == 0 && |rows| == 1 && rows[0].parent == None
    requires Shows(snap, rows, hs, times, owns) && rows[0].inclusive == rows[0].own == owns[0] == 0 && times[0] < 0
    ensures |snap| == 1 && snap[0].inclusive == times[0] && snap[0].own == 0 && !Conserved(snap)
  {
    assert ShowsRow(snap[0], rows[0], 0, hs, times, owns);
    assert hs[..1] == hs && times[..1] == times && owns[..1] == owns;
    RowSumStep(hs, times, 0, 0);
    RowSumStep(hs, owns, 0, 0);
    UnderNone(snap, Some(0));
  }

  lemma LateShown(trace: Trace, h: Handle, n: int)
    requires h.covered == 0 && n < h.start
    ensures trace.Shown(h, n) == 0
  {
  }

  /**
   * A span that opens after `finish` and is still active is measured against the earlier finishing time:
   * a snapshot shows it a negative inclusive time and an own time of zero.
   */
  method LateSpan() returns (snap: seq<Row>)
    ensures |snap| == 1 && snap[0].inclusive == -5 && snap[0].own == 0 && !Conserved(snap)
  {
    hide HandleValid, ParentsFirst, Balanced, Shows, Distinct, Coverages, Times, Cover, Conserved, Frontier, Max,
      ClosedWithin, SettledCount, Trace.OwnTicks, Trace.Shown, Trace.Timely, Trace.Nested, Trace.Valid;
    var trace := new Trace(256, 0);
    trace.Finish(5);
    var h := trace.Open(null, "late", "late", 10);
    assert trace.active == [h] && trace.SnapshotTime(12) == 5;
    snap := trace.Snapshot(12);
    ghost var owns := trace.ShownOwns(trace.active, 5);
    assert owns[0] == 0 by { LateShown(trace, h, 5); }
    OneLateCall(snap, trace.rows, trace.active, Times(trace.active, 5), owns);
  }
}
