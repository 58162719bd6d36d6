/** The scan's coverage counters: totals, the per-extension breakdown, and files still in the pipeline. */
module Accounting {
  import opened Embedding

  /** The sum of the rows of a breakdown, field by field. */
  ghost function Sum(b: map<string, Counts>): Counts {
    if b == map[] then NO_COUNTS else
      var e :| e in b;
      b[e].Plus(Sum(b - {e}))
  }

  lemma {:induction false} SumOut(b: map<string, Counts>, e: string)
    requires e in b
    ensures Sum(b) == b[e].Plus(Sum(b - {e}))
    decreases |b|
  {
    var x :| x in b && Sum(b) == b[x].Plus(Sum(b - {x}));
    if x != e {
      var rest := Sum(b - {x} - {e});
      assert b - {x} - {e} == b - {e} - {x};
      SumOut(b - {x}, e);
      SumOut(b - {e}, x);
      assert Sum(b - {x}) == b[e].Plus(rest) && Sum(b - {e}) == b[x].Plus(rest);
      assert b[x].Plus(b[e].Plus(rest)) == b[e].Plus(b[x].Plus(rest));
    }
  }

  lemma SumAddTo(b: map<string, Counts>, e: string, c: Counts)
    ensures Sum(AddTo(b, e, c)) == Sum(b).Plus(c)
  {
    var b' := AddTo(b, e, c);
    SumOut(b', e);
    if e in b {
      SumOut(b, e);
      assert b' - {e} == b - {e};
    } else {
      assert b' - {e} == b;
    }
  }

  /**
   * In every row of the breakdown each file seen is content, metadata, ignored or failed; the rows add up to the
   * totals; and all but `open` of the files are completed.  A file completed twice makes `open` one less.
   */
  ghost predicate Accounted(t: Tally, open: int) {
    && t.completed + open == t.totals.seen
    && (forall e :: e in t.breakdown ==> t.breakdown[e].Balanced())
    && Sum(t.breakdown) == t.totals
  }

  lemma BalancedPlus(a: Counts, b: Counts)
    requires a.Balanced() && b.Balanced()
    ensures a.Plus(b).Balanced()
  {
  }

  lemma {:induction false} SumBalanced(b: map<string, Counts>)
    requires forall e :: e in b ==> b[e].Balanced()
    ensures Sum(b).Balanced()
    decreases |b|
  {
    if b != map[] {
      var e :| e in b && Sum(b) == b[e].Plus(Sum(b - {e}));
      SumBalanced(b - {e});
      assert b[e].Balanced() && Sum(b - {e}).Balanced();
      BalancedPlus(b[e], Sum(b - {e}));
    }
  }

  /** So the totals are balanced as well: seen = content + metadata + ignored + failed. */
  lemma TotalsBalanced(t: Tally, open: int)
    requires Accounted(t, open)
    ensures t.totals.Balanced()
  {
    SumBalanced(t.breakdown);
  }

  lemma NothingAccounted()
    ensures Accounted(Tally(NO_COUNTS, map[], 0, 0, 0, 0, 0, 0), 0)
  {
  }

  /** A change that is balanced in itself keeps the accounts. */
  lemma CountKeeps(t: Tally, open: int, e: string, c: Counts)
    requires Accounted(t, open) && c.Balanced()
    ensures Accounted(Count(t, e, c).(completed := t.completed + c.seen), open)
  {
    hide Sum, AddTo;
    SumAddTo(t.breakdown, e, c);
    AddToBalanced(t.breakdown, e, c);
  }

  lemma AddToBalanced(b: map<string, Counts>, e: string, c: Counts)
    requires c.Balanced() && forall x :: x in b ==> b[x].Balanced()
    ensures forall x :: x in AddTo(b, e, c) ==> AddTo(b, e, c)[x].Balanced()
  {
    forall x | x in AddTo(b, e, c) ensures AddTo(b, e, c)[x].Balanced() {
      if x != e { assert AddTo(b, e, c)[x] == b[x]; }
    }
  }

  /** A failure completes one of the files still open. */
  lemma FailKeeps(t: Tally, open: int, item: Prepared)
    requires Accounted(t, open)
    ensures Accounted(Fail(t, item), open - 1)
    ensures Fail(t, item).totals.failed == t.totals.failed + 1
  {
    CountKeeps(t, open, item.extension, Failure(item.mode));
  }

  lemma {:induction false} FailAllKeeps(t: Tally, open: int, items: seq<Prepared>)
    requires Accounted(t, open)
    ensures Accounted(FailAll(t, items), open - |items|)
    ensures FailAll(t, items).totals.failed == t.totals.failed + |items|
    decreases |items|
  {
    hide Accounted, Fail;
    if items != [] {
      FailKeeps(t, open, items[0]);
      FailAllKeeps(Fail(t, items[0]), open - 1, items[1..]);
    }
  }

  /** A newly seen file is open until it is completed. */
  lemma CountOpens(t: Tally, open: int, e: string, c: Counts)
    requires Accounted(t, open) && Seen().Plus(c).Balanced() && c.seen == 0
    ensures var t' := Count(Count(t, e, Seen()), e, c);
            Accounted(t', open + 1) && t'.totals.failed == t.totals.failed + c.failed && t'.kept == t.kept
  {
    hide Sum, AddTo;
    CountTwice(t, e, Seen(), c);
    CountKeeps(t, open, e, Seen().Plus(c));
  }

  /** A file that is counted and completed at once leaves nothing open. */
  lemma CountCompletes(t: Tally, open: int, e: string, c: Counts, t': Tally)
    requires Accounted(t, open) && Seen().Plus(c).Balanced() && c.seen == 0
    requires t' == Count(Count(t, e, Seen()), e, c).(completed := t.completed + 1)
    ensures Accounted(t', open) && t'.totals.failed == t.totals.failed + c.failed && t'.kept == t.kept
    ensures t'.totals.seen == t.totals.seen + 1 && t'.totals.ignored == t.totals.ignored + c.ignored
  {
    hide Sum, AddTo, Accounted;
    CountTwice(t, e, Seen(), c);
    CountKeeps(t, open, e, Seen().Plus(c));
  }

  lemma CountTwice(t: Tally, e: string, a: Counts, b: Counts)
    ensures Count(Count(t, e, a), e, b) == Count(t, e, a.Plus(b))
  {
    assert AddTo(AddTo(t.breakdown, e, a), e, b) == AddTo(t.breakdown, e, a.Plus(b));
  }
}
