/** The deterministic sample of a corpus by integer division. */
module Sampling {
  import opened Wrappers

  /** How many of the first `p` positions the division selects, before knowing that it is a count. */
  function Quota(p: nat, total: nat, selected: nat): nat
    requires total > 0
  {
    p * selected / total
  }

  function SelectByPosition(position: int, total: int, selected: int): (r: Result<bool, string>)
    ensures r.Ok? <==> 0 <= selected <= total && 1 <= position <= total
  {
    if total <= 0 || !(0 <= selected <= total) || !(1 <= position <= total)
    then Err("invalid deterministic corpus sampling parameters")
    else Ok(Quota(position, total, selected) > Quota(position - 1, total, selected))
  }

  predicate Selects(position: nat, total: nat, selected: nat) {
    SelectByPosition(position, total, selected) == Ok(true)
  }

  /** The selected positions from `lo + 1` to `hi`. */
  function CountIn(lo: nat, hi: nat, total: nat, selected: nat): nat
    requires lo <= hi
  {
    if hi == lo then 0 else CountIn(lo, hi - 1, total, selected) + if Selects(hi, total, selected) then 1 else 0
  }

  lemma Between(x: nat, n: nat, q: nat)
    requires n > 0 && n * q <= x < n * q + n
    ensures x / n == q
  {
    var r := x / n;
    assert x == n * r + x % n;
    assert r + 1 <= q ==> n * (r + 1) <= n * q;
    assert q + 1 <= r ==> n * (q + 1) <= n * r;
  }

  lemma Distribute(n: nat, a: nat, b: nat)
    ensures n * (a + b) == n * a + n * b
  {
  }

  lemma DivideSum(x: nat, y: nat, n: nat)
    requires n > 0
    ensures var q := (x + y) / n - x / n;
            y / n <= q <= y / n + 1 && (y % n == 0 ==> q == y / n)
  {
    var a, b := x / n, y / n;
    var r := x % n + y % n;
    assert x + y == n * a + n * b + r;
    Distribute(n, a, b);
    Distribute(n, a + b, 1);
    assert x + y == n * (a + b) + r;
    if r < n {
      Between(x + y, n, a + b);
    } else {
      Between(x + y, n, a + b + 1);
    }
  }

  lemma QuotaStep(p: nat, total: nat, selected: nat)
    requires 0 < total && selected <= total && 0 < p
    ensures Quota(p - 1, total, selected) <= Quota(p, total, selected) <= Quota(p - 1, total, selected) + 1
  {
    var before := (p - 1) * selected;
    assert p * selected == before + selected;
    DivideSum(before, selected, total);
    if selected == total {
      Between(selected, total, 1);
      assert selected % total == 0;
    } else {
      Between(selected, total, 0);
    }
  }

  /** The count in any run of positions is the difference of the quotas at its ends. */
  lemma {:induction false} CountIsQuota(lo: nat, hi: nat, total: nat, selected: nat)
    requires 0 < total && selected <= total && lo <= hi <= total
    ensures CountIn(lo, hi, total, selected) == Quota(hi, total, selected) - Quota(lo, total, selected)
  {
    if lo < hi {
      CountIsQuota(lo, hi - 1, total, selected);
      QuotaStep(hi, total, selected);
    }
  }

  /** The first `p` positions hold exactly the floor of their proportional part. */
  lemma PrefixCount(p: nat, total: nat, selected: nat)
    requires 0 < total && selected <= total && p <= total
    ensures CountIn(0, p, total, selected) == p * selected / total
  {
    CountIsQuota(0, p, total, selected);
    Between(0, total, 0);
  }

  lemma ExactlySelected(total: nat, selected: nat)
    requires 0 < total && selected <= total
    ensures CountIn(0, total, total, selected) == selected
  {
    PrefixCount(total, total, selected);
    Between(total * selected, total, selected);
  }

  /** Any window of `m` positions holds the floor or the ceiling of its part; the floor when it is whole. */
  lemma WindowCount(a: nat, m: nat, total: nat, selected: nat)
    requires 0 < total && selected <= total && a + m <= total
    ensures var share := m * selected;
            var count := CountIn(a, a + m, total, selected);
            share / total <= count <= share / total + (if share % total == 0 then 0 else 1)
  {
    CountIsQuota(a, a + m, total, selected);
    assert (a + m) * selected == a * selected + m * selected;
    DivideSum(a * selected, m * selected, total);
  }

  function Sample(rows: seq<int>, count: nat, total: nat, selected: nat): (r: seq<int>)
    requires count <= |rows|
  {
    if count == 0 then [] else
      Sample(rows, count - 1, total, selected) + if Selects(count, total, selected) then [rows[count - 1]] else []
  }

  lemma {:induction false} SampleSize(rows: seq<int>, count: nat, total: nat, selected: nat)
    requires count <= |rows|
    ensures |Sample(rows, count, total, selected)| == CountIn(0, count, total, selected)
  {
    if count > 0 {
      SampleSize(rows, count - 1, total, selected);
    }
  }

  /** A selected position gets the row there, at the place that the part of the positions before it has filled. */
  lemma {:induction false} SampleAt(rows: seq<int>, count: nat, p: nat, selected: nat)
    requires 1 <= p <= count <= |rows| && selected <= |rows|
    requires Quota(p, |rows|, selected) > Quota(p - 1, |rows|, selected)
    ensures var sample, k := Sample(rows, count, |rows|, selected), Quota(p - 1, |rows|, selected);
            k < |sample| && sample[k] == rows[p - 1]
  {
    if p < count {
      SampleAt(rows, count - 1, p, selected);
    } else {
      SampleSize(rows, p - 1, |rows|, selected);
      PrefixCount(p - 1, |rows|, selected);
    }
    hide Quota;
  }

  /** The extraction loop fills the preallocated keys exactly, so its mismatch check never fires. */
  method Extract(rows: seq<int>, selected: nat) returns (keys: array<int>, mismatch: bool)
    requires selected <= |rows|
    ensures fresh(keys) && keys.Length == selected && !mismatch
    ensures keys[..] == Sample(rows, |rows|, |rows|, selected)
    ensures forall p :: 1 <= p <= |rows| && Quota(p, |rows|, selected) > Quota(p - 1, |rows|, selected) ==>
              Quota(p - 1, |rows|, selected) < keys.Length && keys[Quota(p - 1, |rows|, selected)] == rows[p - 1]
  {
    keys := new int[selected];
    var total := |rows|;
    var position, stored: nat := 0, 0;
    while position < total
      invariant position <= total && stored <= selected
      invariant keys[..stored] == Sample(rows, position, total, selected)
    {
      position := position + 1;
      SampleSize(rows, position - 1, total, selected);
      PrefixCount(position - 1, total, selected);
      if Selects(position, total, selected) {
        PrefixCount(position, total, selected);
        QuotaAtMost(position, total, selected);
        keys[stored] := rows[position - 1];
        stored := stored + 1;
      }
    }
    SampleSize(rows, total, total, selected);
    if total > 0 {
      ExactlySelected(total, selected);
    }
    mismatch := stored != selected;
    hide Quota;
    forall p | 1 <= p <= total && Quota(p, total, selected) > Quota(p - 1, total, selected)
      ensures Quota(p - 1, total, selected) < keys.Length && keys[Quota(p - 1, total, selected)] == rows[p - 1]
    {
      SampleAt(rows, total, p, selected);
      assert keys[..][Quota(p - 1, total, selected)] == rows[p - 1];
    }
  }

  lemma QuotaAtMost(p: nat, total: nat, selected: nat)
    requires 0 < total && p <= total
    ensures Quota(p, total, selected) <= selected
  {
    var rest := (total - p) * selected;
    assert p * selected + rest == total * selected;
    DivideSum(p * selected, rest, total);
    Between(total * selected, total, selected);
  }
}
