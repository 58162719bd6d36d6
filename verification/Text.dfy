/** Character scanners: white space, trimming, words, and the spans they cut out of a string. */
module Text {

  datatype Span = Span(start: nat, end: nat)

  /** `str.isspace` for one character, which is also what `\s` matches. */
  predicate IsSpace(c: char) {
    || '\t' <= c <= '\r'
    || '\U{1C}' <= c <= ' '
    || c in {'\U{85}', '\U{A0}', '\U{1680}', '\U{2028}', '\U{2029}', '\U{202F}', '\U{205F}', '\U{3000}'}
    || '\U{2000}' <= c <= '\U{200A}'
  }

  ghost predicate AllSpace(s: string, lo: nat, hi: nat)
    requires hi <= |s|
  {
    forall p :: lo <= p < hi ==> IsSpace(s[p])
  }

  /** The first index from `i` up to `hi` that does not hold a space. */
  function TrimLeft(s: string, i: nat, hi: nat): (r: nat)
    requires i <= hi <= |s|
    ensures i <= r <= hi && AllSpace(s, i, r)
    ensures r < hi ==> !IsSpace(s[r])
    decreases hi - i
  {
    if i == hi || !IsSpace(s[i]) then i else TrimLeft(s, i + 1, hi)
  }

  /** The end of `s[lo..i]` without its trailing spaces. */
  function TrimRight(s: string, lo: nat, i: nat): (r: nat)
    requires lo <= i <= |s|
    ensures lo <= r <= i && AllSpace(s, r, i)
    ensures lo < r ==> !IsSpace(s[r - 1])
  {
    if i == lo || !IsSpace(s[i - 1]) then i else TrimRight(s, lo, i - 1)
  }

  /** The span of `s[lo..hi].strip()`. */
  function Trim(s: string, lo: nat, hi: nat): (r: Span)
    requires lo <= hi <= |s|
    ensures lo <= r.start <= r.end <= hi
    ensures AllSpace(s, lo, r.start) && AllSpace(s, r.end, hi)
    ensures r.start < r.end ==> !IsSpace(s[r.start]) && !IsSpace(s[r.end - 1])
    ensures r.start == r.end ==> AllSpace(s, lo, hi)
  {
    var a := TrimLeft(s, lo, hi);
    Span(a, TrimRight(s, a, hi))
  }

  function Strip(s: string): string {
    var r := Trim(s, 0, |s|);
    s[r.start..r.end]
  }

  function WordEnd(s: string, i: nat): (r: nat)
    requires i <= |s|
    ensures i <= r <= |s|
    ensures forall p :: i <= p < r ==> !IsSpace(s[p])
    ensures r < |s| ==> IsSpace(s[r])
    decreases |s| - i
  {
    if i == |s| || IsSpace(s[i]) then i else WordEnd(s, i + 1)
  }

  /** The matches of `\S+` from index `i` on. */
  function Words(s: string, i: nat): (r: seq<Span>)
    requires i <= |s|
    decreases |s| - i
  {
    if i == |s| then []
    else if IsSpace(s[i]) then Words(s, i + 1)
    else [Span(i, WordEnd(s, i))] + Words(s, WordEnd(s, i))
  }

  function WordCount(s: string): nat {
    |Words(s, 0)|
  }

  /**
   * The spans lie in order inside `[lo, hi)`, start and end on visible characters, and leave
   * out nothing but spaces.
   */
  ghost predicate Tiles(s: string, spans: seq<Span>, lo: nat, hi: nat)
    decreases |spans|
  {
    && lo <= hi <= |s|
    && if spans == [] then AllSpace(s, lo, hi) else
         && lo <= spans[0].start < spans[0].end <= hi
         && AllSpace(s, lo, spans[0].start)
         && !IsSpace(s[spans[0].start]) && !IsSpace(s[spans[0].end - 1])
         && Tiles(s, spans[1..], spans[0].end, hi)
  }

  /** Where the k-th span of a tiling is: inside the range, with visible ends, before the next one. */
  lemma {:induction false} TileAt(s: string, spans: seq<Span>, lo: nat, hi: nat, k: nat)
    requires Tiles(s, spans, lo, hi) && k < |spans|
    ensures lo <= spans[k].start < spans[k].end <= hi <= |s|
    ensures !IsSpace(s[spans[k].start]) && !IsSpace(s[spans[k].end - 1])
    ensures k + 1 < |spans| ==> spans[k].end <= spans[k + 1].start
    decreases k
  {
    hide IsSpace;
    if k > 0 {
      TileAt(s, spans[1..], spans[0].end, hi, k - 1);
    }
  }

  lemma {:induction false} TilesInOrder(s: string, spans: seq<Span>, lo: nat, hi: nat, k: nat, m: nat)
    requires Tiles(s, spans, lo, hi) && k < m < |spans|
    ensures spans[k].end <= spans[m].start
    decreases m - k
  {
    TileAt(s, spans, lo, hi, m - 1);
    if k < m - 1 { TilesInOrder(s, spans, lo, hi, k, m - 1); }
    TileAt(s, spans, lo, hi, k);
  }

  lemma {:induction false} TilesDrop(s: string, spans: seq<Span>, lo: nat, hi: nat, k: nat)
    requires Tiles(s, spans, lo, hi) && 0 < k <= |spans|
    ensures Tiles(s, spans[k..], spans[k - 1].end, hi)
    decreases k
  {
    hide IsSpace;
    if k > 1 {
      TilesDrop(s, spans[1..], spans[0].end, hi, k - 1);
      assert spans[1..][k - 1..] == spans[k..];
    }
  }

  /** Behind the last span of a tiling there are only spaces. */
  lemma {:induction false} TilesEnd(s: string, spans: seq<Span>, lo: nat, hi: nat)
    requires Tiles(s, spans, lo, hi) && spans != []
    ensures spans[|spans| - 1].end <= hi <= |s| && AllSpace(s, spans[|spans| - 1].end, hi)
    decreases |spans|
  {
    hide IsSpace;
    if |spans| > 1 { TilesEnd(s, spans[1..], spans[0].end, hi); }
  }

  /** A tiling leaves no visible character out. */
  lemma {:induction false} TilesCover(s: string, spans: seq<Span>, lo: nat, hi: nat, p: nat) returns (k: nat)
    requires Tiles(s, spans, lo, hi) && lo <= p < hi && !IsSpace(s[p])
    ensures k < |spans| && spans[k].start <= p < spans[k].end
    decreases |spans|
  {
    hide IsSpace;
    if p < spans[0].end {
      k := 0;
    } else {
      k := TilesCover(s, spans[1..], spans[0].end, hi, p);
      k := k + 1;
    }
  }

  lemma {:induction false} TilesConcat(s: string, a: seq<Span>, b: seq<Span>, lo: nat, mid: nat, hi: nat)
    requires Tiles(s, a, lo, mid) && Tiles(s, b, mid, hi)
    ensures Tiles(s, a + b, lo, hi)
    decreases |a|
  {
    hide IsSpace;
    if a == [] {
      assert a + b == b;
      TilesWiden(s, b, lo, mid, hi, hi);
    } else {
      TilesConcat(s, a[1..], b, a[0].end, mid, hi);
      assert (a + b)[1..] == a[1..] + b;
    }
  }

  /** Spaces on either side do not matter to a tiling. */
  lemma {:induction false} TilesWiden(s: string, a: seq<Span>, lo: nat, lo': nat, hi': nat, hi: nat)
    requires lo <= lo' <= hi' <= hi <= |s| && AllSpace(s, lo, lo') && AllSpace(s, hi', hi)
    requires Tiles(s, a, lo', hi')
    ensures Tiles(s, a, lo, hi)
    decreases |a|
  {
    hide IsSpace;
    if a != [] {
      TilesWiden(s, a[1..], a[0].end, a[0].end, hi', hi);
    }
  }

  function Shift(spans: seq<Span>, delta: nat): (r: seq<Span>)
    ensures |r| == |spans|
    ensures forall k :: 0 <= k < |r| ==> r[k] == Span(spans[k].start + delta, spans[k].end + delta)
  {
    seq(|spans|, k requires 0 <= k < |spans| => Span(spans[k].start + delta, spans[k].end + delta))
  }

  /** A tiling of a part, moved to where the part is. */
  lemma TilesShift(s: string, from: nat, to: nat, spans: seq<Span>, lo: nat, hi: nat)
    requires from <= to <= |s| && Tiles(s[from..to], spans, lo, hi)
    ensures Tiles(s, Shift(spans, from), from + lo, from + hi)
  {
    hide Tiles, Shift;
    TilesMoved(s, s[from..to], from, spans, lo, hi);
  }

  lemma {:induction false} TilesMoved(s: string, part: string, from: nat, spans: seq<Span>, lo: nat, hi: nat)
    requires from + |part| <= |s| && (forall p :: 0 <= p < |part| ==> s[from + p] == part[p]) && Tiles(part, spans, lo, hi)
    ensures Tiles(s, Shift(spans, from), from + lo, from + hi)
    decreases |spans|
  {
    hide IsSpace, AllSpace;
    if spans == [] {
      SpaceMoved(s, part, from, lo, hi);
    } else {
      SpaceMoved(s, part, from, lo, spans[0].start);
      TilesMoved(s, part, from, spans[1..], spans[0].end, hi);
      assert Shift(spans, from)[1..] == Shift(spans[1..], from);
    }
  }

  lemma SpaceMoved(s: string, part: string, from: nat, lo: nat, hi: nat)
    requires from + |part| <= |s| && (forall p :: 0 <= p < |part| ==> s[from + p] == part[p])
    requires lo <= hi <= |part| && AllSpace(part, lo, hi)
    ensures AllSpace(s, from + lo, from + hi)
  {
    hide IsSpace;
    forall q | from + lo <= q < from + hi ensures IsSpace(s[q]) {
      assert s[from + (q - from)] == part[q - from];
    }
  }

  lemma {:induction false} WordsTile(s: string, i: nat)
    requires i <= |s|
    ensures Tiles(s, Words(s, i), i, |s|)
    decreases |s| - i
  {
    hide IsSpace;
    if i < |s| {
      if IsSpace(s[i]) {
        WordsTile(s, i + 1);
        TilesWiden(s, Words(s, i + 1), i, i + 1, |s|, |s|);
      } else {
        WordsTile(s, WordEnd(s, i));
        assert Words(s, i)[1..] == Words(s, WordEnd(s, i));
      }
    }
  }

  /** A word is a longest stretch without spaces. */
  ghost predicate IsWord(s: string, w: Span) {
    && w.start < w.end <= |s| && (forall p :: w.start <= p < w.end ==> !IsSpace(s[p]))
    && (w.start > 0 ==> IsSpace(s[w.start - 1])) && (w.end < |s| ==> IsSpace(s[w.end]))
  }

  lemma {:induction false} WordsAreWords(s: string, i: nat, k: nat)
    requires i <= |s| && k < |Words(s, i)| && (0 < i < |s| ==> IsSpace(s[i - 1]) || IsSpace(s[i]))
    ensures IsWord(s, Words(s, i)[k])
    decreases |s| - i
  {
    hide IsSpace;
    if IsSpace(s[i]) {
      WordsAreWords(s, i + 1, k);
    } else if k > 0 {
      WordsAreWords(s, WordEnd(s, i), k - 1);
    }
  }

  /** The k-th word starts the words from its start on, and ends before the words from its end on. */
  lemma {:induction false} WordsFrom(s: string, i: nat, k: nat)
    requires i <= |s| && k < |Words(s, i)|
    ensures var w := Words(s, i)[k];
            && i <= w.start < w.end <= |s|
            && !IsSpace(s[w.start]) && !IsSpace(s[w.end - 1]) && (w.end < |s| ==> IsSpace(s[w.end]))
            && |Words(s, w.start)| == |Words(s, i)| - k
            && |Words(s, w.end)| == |Words(s, i)| - k - 1
    decreases |s| - i
  {
    hide IsSpace;
    if IsSpace(s[i]) {
      WordsFrom(s, i + 1, k);
    } else if k > 0 {
      WordsFrom(s, WordEnd(s, i), k - 1);
    }
  }

  lemma {:induction false} WordEndInSlice(s: string, x: nat, y: nat, i: nat)
    requires x <= i <= y <= |s| && (y < |s| ==> IsSpace(s[y]))
    ensures WordEnd(s[x..y], i - x) == WordEnd(s, i) - x
    decreases y - i
  {
    hide IsSpace;
    if i < y && !IsSpace(s[i]) {
      WordEndInSlice(s, x, y, i + 1);
    }
  }

  /** A slice that ends where a word ends holds the words before the ones that follow it. */
  lemma {:induction false} WordsInSlice(s: string, x: nat, y: nat, i: nat)
    requires x <= i <= y <= |s| && (y < |s| ==> IsSpace(s[y]))
    ensures |Words(s[x..y], i - x)| == |Words(s, i)| - |Words(s, y)|
    decreases y - i
  {
    hide IsSpace, WordEnd;
    var part := s[x..y];
    if i < y {
      var k := i - x;
      assert part[k] == s[i];
      if IsSpace(s[i]) {
        WordsInSlice(s, x, y, i + 1);
        assert Words(part, k) == Words(part, k + 1) && Words(s, i) == Words(s, i + 1);
      } else {
        var e := WordEnd(s, i);
        WordEndInSlice(s, x, y, i);
        assert WordEnd(part, k) == e - x;
        WordsInSlice(s, x, y, e);
        assert |Words(part, k)| == 1 + |Words(part, e - x)| && |Words(s, i)| == 1 + |Words(s, e)|;
      }
    }
  }

  /** Cutting a string from the start of one word to the end of another keeps the words between. */
  lemma WordCountOfSlice(s: string, k: nat, m: nat)
    requires k < m <= WordCount(s)
    ensures var x, y := Words(s, 0)[k].start, Words(s, 0)[m - 1].end;
            x < y <= |s| && WordCount(s[x..y]) == m - k
  {
    hide IsSpace, AllSpace, Tiles, Words;
    var x, y := Words(s, 0)[k].start, Words(s, 0)[m - 1].end;
    WordsFrom(s, 0, k);
    WordsFrom(s, 0, m - 1);
    assert x < y by {
      WordsTile(s, 0);
      if k < m - 1 { TilesInOrder(s, Words(s, 0), 0, |s|, k, m - 1); }
    }
    WordsInSlice(s, x, y, x);
  }

  lemma {:induction false} WordEndAppend(s: string, t: string, i: nat)
    requires i <= |s|
    ensures WordEnd(s + t, i) == if WordEnd(s, i) < |s| then WordEnd(s, i) else WordEnd(s + t, |s|)
    decreases |s| - i
  {
    hide IsSpace;
    if i < |s| && !IsSpace(s[i]) {
      WordEndAppend(s, t, i + 1);
    }
  }

  lemma {:induction false} WordsAppendFrom(s: string, t: string, i: nat)
    requires i <= |s|
    ensures |Words(s + t, i)| <= |Words(s, i)| + WordCount(t)
    decreases |s| - i
  {
    hide IsSpace, WordEnd;
    var w := s + t;
    if i == |s| {
      WordsInSlice(w, |s|, |w|, |s|);
      assert w[|s|..|w|] == t;
    } else if IsSpace(s[i]) {
      WordsAppendFrom(s, t, i + 1);
      assert Words(w, i) == Words(w, i + 1) && Words(s, i) == Words(s, i + 1);
    } else {
      var e, end := WordEnd(s, i), WordEnd(w, i);
      WordEndAppend(s, t, i);
      assert |Words(w, i)| == 1 + |Words(w, end)| && |Words(s, i)| == 1 + |Words(s, e)|;
      WordsAppendFrom(s, t, e);
      if e == |s| { RestOfWord(w, |s|); }
    }
  }

  lemma RestOfWord(s: string, i: nat)
    requires i <= |s|
    ensures |Words(s, WordEnd(s, i))| <= |Words(s, i)|
  {
  }

  /** Two texts put together hold at most the words of both: one of each may have become one. */
  lemma WordCountAppend(s: string, t: string)
    ensures WordCount(s + t) <= WordCount(s) + WordCount(t)
  {
    WordsAppendFrom(s, t, 0);
  }

  lemma {:induction false} NoWordsFrom(s: string, i: nat)
    requires i <= |s| && AllSpace(s, i, |s|)
    ensures Words(s, i) == []
    decreases |s| - i
  {
    if i < |s| { NoWordsFrom(s, i + 1); }
  }

  /** Between one span of a tiling and the next there are only spaces. */
  lemma {:induction false} TileGap(s: string, spans: seq<Span>, lo: nat, hi: nat, k: nat)
    requires Tiles(s, spans, lo, hi) && k + 1 < |spans|
    ensures spans[k].end <= spans[k + 1].start <= |s| && AllSpace(s, spans[k].end, spans[k + 1].start)
    decreases k
  {
    hide IsSpace;
    if k > 0 { TileGap(s, spans[1..], spans[0].end, hi, k - 1); }
  }

  /** Spaces and a further piece add at most the words of the piece. */
  lemma WordCountPiece(s: string, a: nat, b: nat, x: nat, y: nat)
    requires a <= b <= x <= y <= |s| && AllSpace(s, b, x)
    ensures WordCount(s[a..y]) <= WordCount(s[a..b]) + WordCount(s[x..y])
  {
    hide Words, IsSpace;
    assert s[a..y] == s[a..b] + s[b..x] + s[x..y];
    WordCountAppend(s[a..b] + s[b..x], s[x..y]);
    WordCountAppend(s[a..b], s[b..x]);
    NoWordsFrom(s[b..x], 0);
  }

  /** A string whose ends are visible is its own strip and holds a word. */
  lemma StripTight(s: string)
    requires s != "" && !IsSpace(s[0]) && !IsSpace(s[|s| - 1])
    ensures Strip(s) == s && WordCount(s) >= 1
  {
  }
}
