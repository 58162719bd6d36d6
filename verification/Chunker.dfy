/**
 * The second half of the chunker: units are packed greedily into windows, and each window restarts a
 * bounded number of words before the previous one ended.
 */
module Chunker {
  import opened Basics
  import opened Wrappers
  import opened Text
  import opened ChunkUnits

  datatype Chunk = Chunk(text: string, page: Option<int>, charStart: nat, charEnd: nat, heading: string)

  datatype Limits = Limits(target: int, overlap: int, maxWords: nat)

  datatype Window = Window(first: nat, end: nat)

  const HEADING_BREAK_WORDS := 40

  function Size(u: Unit): nat {
    WordCount(u.text)
  }

  /** The words in `units[i..j]`. */
  ghost function Load(units: seq<Unit>, i: nat, j: nat): nat
    requires i <= j <= |units|
  {
    if i == j then 0 else Load(units, i, j - 1) + Size(units[j - 1])
  }

  /** Where the window that starts at `i` ends, once it holds `units[i..j]` with `count` words. */
  function WindowEnd(units: seq<Unit>, i: nat, j: nat, count: nat, lim: Limits): (end: nat)
    requires i <= j <= |units|
    ensures j <= end <= |units|
    ensures i == j < |units| ==> j < end
    decreases |units| - j
  {
    if j == |units| then j else
      var size := Size(units[j]);
      if j > i && units[j].isHeading && count >= HEADING_BREAK_WORDS then j
      else if j > i && count + size > lim.maxWords then j
      else if count + size >= lim.target then j + 1
      else WindowEnd(units, i, j + 1, count + size, lim)
  }

  function End(units: seq<Unit>, i: nat, lim: Limits): (end: nat)
    requires i < |units|
    ensures i < end <= |units|
  {
    WindowEnd(units, i, i, 0, lim)
  }

  /** The backward walk over `units[i + 1..k + 1]` that collects the overlap. */
  function OverlapStart(units: seq<Unit>, i: nat, k: int, overlap: nat, next: nat, lim: Limits): (r: nat)
    requires k < |units|
    decreases k
  {
    if k <= i then next else
      var size := Size(units[k]);
      if overlap != 0 && overlap + size > lim.overlap then next
      else if overlap + size >= lim.overlap then k
      else OverlapStart(units, i, k - 1, overlap + size, k, lim)
  }

  function NextStart(units: seq<Unit>, i: nat, j: nat, lim: Limits): nat
    requires i < j <= |units|
  {
    Max(i + 1, OverlapStart(units, i, j - 1, 0, j, lim))
  }

  lemma {:induction false} OverlapStartBounds(units: seq<Unit>, i: nat, k: int, overlap: nat, lim: Limits)
    requires i <= k < |units|
    ensures i < OverlapStart(units, i, k, overlap, k + 1, lim) <= k + 1
    decreases k
  {
    if k > i { OverlapStartBounds(units, i, k - 1, overlap + Size(units[k]), lim); }
  }

  /** The next window starts after this one starts and no later than this one ends. */
  lemma NextStartBounds(units: seq<Unit>, i: nat, j: nat, lim: Limits)
    requires i < j <= |units|
    ensures i < NextStart(units, i, j, lim) <= j
  {
    OverlapStartBounds(units, i, j - 1, 0, lim);
  }

  function Windows(units: seq<Unit>, i: nat, lim: Limits): seq<Window>
    requires i <= |units|
    decreases |units| - i
  {
    if i == |units| then [] else
      var j := End(units, i, lim);
      NextStartBounds(units, i, j, lim);
      [Window(i, j)] + if j == |units| then [] else Windows(units, NextStart(units, i, j, lim), lim)
  }

  // ----- What the windows guarantee

  /** No window exceeds the limit unless its first unit alone does. */
  lemma {:induction false} WindowLoad(units: seq<Unit>, i: nat, j: nat, lim: Limits)
    requires i <= j <= |units| && i < |units|
    requires i < j ==> Load(units, i, j) <= Max(lim.maxWords, Size(units[i]))
    ensures var end := WindowEnd(units, i, j, Load(units, i, j), lim);
            i < j || j < |units| ==> Load(units, i, end) <= Max(lim.maxWords, Size(units[i]))
    decreases |units| - j
  {
    if j < |units| {
      var count := Load(units, i, j);
      assert Load(units, i, j + 1) == count + Size(units[j]);
      if WindowEnd(units, i, j, count, lim) > j {
        assert Load(units, i, j + 1) <= Max(lim.maxWords, Size(units[i])) by {
          if i == j { assert count == 0; }
        }
        WindowLoad(units, i, j + 1, lim);
      }
    }
  }

  /** The overlap fits its limit or is a single unit. */
  lemma {:induction false} OverlapLoad(units: seq<Unit>, i: nat, k: int, j: nat, lim: Limits)
    requires i <= k < j <= |units|
    requires forall u :: u in units ==> Size(u) >= 1
    requires k + 1 == j || k + 2 == j || Load(units, k + 1, j) <= lim.overlap
    ensures var next := OverlapStart(units, i, k, Load(units, k + 1, j), k + 1, lim);
            next <= j && (j - next <= 1 || Load(units, next, j) <= lim.overlap)
    decreases k
  {
    if k > i {
      LoadFirst(units, k, j);
      var overlap, size := Load(units, k + 1, j), Size(units[k]);
      assert units[k] in units;
      if overlap != 0 && overlap + size > lim.overlap {
      } else if overlap + size >= lim.overlap {
        LoadPositive(units, k + 1, j);
      } else {
        OverlapLoad(units, i, k - 1, j, lim);
      }
    }
  }

  lemma {:induction false} LoadFirst(units: seq<Unit>, k: nat, j: nat)
    requires k < j <= |units|
    ensures Load(units, k, j) == Size(units[k]) + Load(units, k + 1, j)
    decreases j
  {
    if k + 1 < j {
      LoadFirst(units, k, j - 1);
    } else {
      assert Load(units, k, k) == 0;
    }
  }

  lemma LoadPositive(units: seq<Unit>, k: nat, j: nat)
    requires k <= j <= |units| && forall u :: u in units ==> Size(u) >= 1
    ensures k < j ==> Load(units, k, j) >= 1
  {
    if k < j { assert units[j - 1] in units; }
  }

  /** The walk stops before the window's first unit only with enough overlap, or if one unit more were too many. */
  lemma {:induction false} OverlapIsMaximal(units: seq<Unit>, i: nat, k: int, j: nat, lim: Limits)
    requires i <= k < j <= |units| && forall u :: u in units ==> Size(u) >= 1
    ensures var next := OverlapStart(units, i, k, Load(units, k + 1, j), k + 1, lim);
            && next <= k + 1 && (k + 1 == j && i < k ==> next < j)
            && (i + 1 < next <= j ==> Load(units, next, j) >= lim.overlap || Load(units, next - 1, j) > lim.overlap)
    decreases k
  {
    if k > i {
      LoadFirst(units, k, j);
      LoadPositive(units, k + 1, j);
      OverlapStartBounds(units, i, k, Load(units, k + 1, j), lim);
      if k + 1 == j { assert Load(units, j, j) == 0; }
      OverlapIsMaximal(units, i, k - 1, j, lim);
    }
  }

  /** Which unit the next window starts with: as much overlap as there can be, without going beyond the limit. */
  lemma NextIsMaximal(units: seq<Unit>, i: nat, j: nat, lim: Limits)
    requires i < j <= |units| && forall u :: u in units ==> Size(u) >= 1
    ensures var next := NextStart(units, i, j, lim);
            && i < next <= j && (i + 1 < j ==> next < j)
            && (i + 1 < next ==> Load(units, next, j) >= lim.overlap || Load(units, next - 1, j) > lim.overlap)
  {
    NextStartBounds(units, i, j, lim);
    OverlapIsMaximal(units, i, j - 1, j, lim);
    OverlapStartBounds(units, i, j - 1, 0, lim);
    assert Load(units, j, j) == 0;
  }

  lemma NextOverlap(units: seq<Unit>, i: nat, j: nat, lim: Limits)
    requires i < j <= |units| && forall u :: u in units ==> Size(u) >= 1
    ensures var next := NextStart(units, i, j, lim);
            i < next <= j && (j - next <= 1 || Load(units, next, j) <= lim.overlap)
  {
    NextStartBounds(units, i, j, lim);
    OverlapLoad(units, i, j - 1, j, lim);
    OverlapStartBounds(units, i, j - 1, 0, lim);
  }

  /**
   * Two greedy runs, one from `i` and a later one from `i'`, both standing at `k`: the later one
   * carries no more words, so it cannot stop before the earlier one.
   */
  lemma {:induction false} RunsOrdered(units: seq<Unit>, i: nat, i': nat, k: nat, count: nat, count': nat, lim: Limits)
    requires i < k && i' <= k <= |units| && count' <= count
    ensures WindowEnd(units, i, k, count, lim) <= WindowEnd(units, i', k, count', lim)
    decreases |units| - k
  {
    if k < |units| {
      var size := Size(units[k]);
      RunsOrdered(units, i, i', k + 1, count + size, count' + size, lim);
    }
  }

  /** The run from `i` passes every place before its end. */
  lemma {:induction false} RunPasses(units: seq<Unit>, i: nat, j: nat, count: nat, k: nat, lim: Limits) returns (c: nat)
    requires i <= j <= k <= |units| && k < WindowEnd(units, i, j, count, lim)
    ensures WindowEnd(units, i, k, c, lim) == WindowEnd(units, i, j, count, lim)
    decreases k - j
  {
    c := count;
    if j < k {
      c := RunPasses(units, i, j + 1, count + Size(units[j]), k, lim);
    }
  }

  /** A window that starts inside an earlier one does not end before it. */
  lemma EndsNeverDecrease(units: seq<Unit>, i: nat, i': nat, lim: Limits)
    requires i < i' < |units| && i' <= End(units, i, lim)
    ensures End(units, i, lim) <= End(units, i', lim)
  {
    if i' < End(units, i, lim) {
      var c := RunPasses(units, i, i, 0, i', lim);
      RunsOrdered(units, i, i', i', c, 0, lim);
    }
  }

  /** Consecutive windows move forward, leave no gap and never end earlier; together they reach the last unit. */
  ghost predicate Marching(ws: seq<Window>, from: nat, n: nat) {
    && (from < n <==> ws != [])
    && (ws != [] ==> ws[0].first == from && ws[|ws| - 1].end == n)
    && (forall k :: 0 <= k < |ws| ==> ws[k].first < ws[k].end <= n)
    && (forall k :: 0 <= k < |ws| - 1 ==>
          ws[k].first < ws[k + 1].first <= ws[k].end && ws[k].end <= ws[k + 1].end)
  }

  lemma {:induction false} WindowsMarch(units: seq<Unit>, i: nat, lim: Limits)
    requires i <= |units|
    ensures Marching(Windows(units, i, lim), i, |units|)
    decreases |units| - i
  {
    if i < |units| {
      var j := End(units, i, lim);
      if j < |units| {
        var next := NextStart(units, i, j, lim);
        NextStartBounds(units, i, j, lim);
        WindowsMarch(units, next, lim);
        EndsNeverDecrease(units, i, next, lim);
        var ws, rest := Windows(units, i, lim), Windows(units, next, lim);
        assert ws == [Window(i, j)] + rest && rest[0] == Window(next, End(units, next, lim));
        forall k | 0 <= k < |ws| - 1
          ensures ws[k].first < ws[k + 1].first <= ws[k].end && ws[k].end <= ws[k + 1].end
        {
          if k > 0 { assert ws[k] == rest[k - 1] && ws[k + 1] == rest[k]; }
        }
      }
    }
  }

  /** Windows that march over the units leave none out. */
  lemma {:induction false} MarchCovers(ws: seq<Window>, from: nat, n: nat, u: nat) returns (k: nat)
    requires Marching(ws, from, n) && from <= u < n
    ensures k < |ws| && ws[k].first <= u < ws[k].end
    decreases |ws|
  {
    if u < ws[0].end {
      k := 0;
    } else {
      var rest := ws[1..];
      assert |ws| > 1 && rest[0] == ws[1] && rest[|rest| - 1] == ws[|ws| - 1];
      forall m | 0 <= m < |rest| - 1
        ensures rest[m].first < rest[m + 1].first <= rest[m].end && rest[m].end <= rest[m + 1].end
      {
        assert rest[m] == ws[m + 1] && rest[m + 1] == ws[m + 2];
      }
      k := MarchCovers(rest, ws[1].first, n, u);
      k := k + 1;
    }
  }

  // ----- Chunks

  /** The first heading label in `units[i..j]` that is not empty. */
  function ActiveHeading(units: seq<Unit>, i: nat, j: nat): string
    requires i < j <= |units|
    decreases j
  {
    if j == i + 1 then units[i].heading else
      var before := ActiveHeading(units, i, j - 1);
      if before != "" then before else units[j - 1].heading
  }

  function Cut(text: string, a: nat, b: nat): string {
    if a <= b <= |text| then text[a..b] else ""
  }

  function ChunkOf(text: string, page: Option<int>, units: seq<Unit>, w: Window): Chunk
    requires w.first < w.end <= |units|
  {
    var a, b := units[w.first].start, units[w.end - 1].end;
    Chunk(Strip(Cut(text, a, b)), page, a, b, ActiveHeading(units, w.first, w.end))
  }

  function ChunksFrom(text: string, page: Option<int>, units: seq<Unit>, i: nat, lim: Limits): seq<Chunk>
    requires i <= |units|
    decreases |units| - i
  {
    if i == |units| then [] else
      var j := End(units, i, lim);
      NextStartBounds(units, i, j, lim);
      [ChunkOf(text, page, units, Window(i, j))]
      + if j == |units| then [] else ChunksFrom(text, page, units, NextStart(units, i, j, lim), lim)
  }

  /** The chunks of a text. */
  function Chunks(text: string, page: Option<int>, lim: Limits, isUpper: string -> bool): seq<Chunk>
    requires lim.maxWords >= 1
  {
    ChunksFrom(text, page, Units(text, 0, "", lim.maxWords, isUpper), 0, lim)
  }

  lemma {:induction false} ChunksFollowWindows(text: string, page: Option<int>, units: seq<Unit>, i: nat, lim: Limits)
    requires i <= |units|
    ensures var chunks, ws := ChunksFrom(text, page, units, i, lim), Windows(units, i, lim);
            |chunks| == |ws| && forall k :: 0 <= k < |ws| ==>
              ws[k].first < ws[k].end <= |units| && chunks[k] == ChunkOf(text, page, units, ws[k])
    decreases |units| - i
  {
    hide ChunkOf, End, NextStart;
    if i < |units| {
      var j := End(units, i, lim);
      NextStartBounds(units, i, j, lim);
      if j < |units| { ChunksFollowWindows(text, page, units, NextStart(units, i, j, lim), lim); }
    }
  }

  /** The window loop of `chunk_text`. */
  method TakeWindow(units: seq<Unit>, i: nat, lim: Limits) returns (j: nat, heading: string)
    requires i < |units|
    ensures j == End(units, i, lim) && heading == ActiveHeading(units, i, j)
  {
    var count: nat := 0;
    heading := units[i].heading;
    j := i;
    while j < |units|
      invariant i <= j <= |units|
      invariant WindowEnd(units, i, j, count, lim) == End(units, i, lim)
      invariant if i < j then heading == ActiveHeading(units, i, j) else heading == units[i].heading && count == 0
    {
      var unit := units[j];
      var size := Size(unit);
      if j > i && unit.isHeading && count >= HEADING_BREAK_WORDS {
        return;
      }
      if j > i && count + size > lim.maxWords {
        return;
      }
      count := count + size;
      if heading == "" {
        heading := unit.heading;
      }
      j := j + 1;
      if count >= lim.target {
        return;
      }
    }
  }

  /** The overlap loop of `chunk_text`. */
  method StepBack(units: seq<Unit>, i: nat, j: nat, lim: Limits) returns (next: nat)
    requires i < j <= |units|
    ensures next == NextStart(units, i, j, lim)
  {
    var overlap: nat := 0;
    next := j;
    var k: int := j - 1;
    while k > i
      invariant i <= k < j
      invariant OverlapStart(units, i, k, overlap, next, lim) == OverlapStart(units, i, j - 1, 0, j, lim)
    {
      var size := Size(units[k]);
      if overlap != 0 && overlap + size > lim.overlap {
        break;
      }
      overlap := overlap + size;
      next := k;
      if overlap >= lim.overlap {
        break;
      }
      k := k - 1;
    }
    assert next == OverlapStart(units, i, j - 1, 0, j, lim);
    next := if next < i + 1 then i + 1 else next;
  }

  lemma NoChunks(text: string, page: Option<int>, units: seq<Unit>, lim: Limits)
    ensures ChunksFrom(text, page, units, |units|, lim) == []
  {
  }

  /** One turn of the loop of `chunk_text`: the chunk that starts at `i` and where the next one starts. */
  method AppendChunk(chunks: seq<Chunk>, text: string, page: Option<int>, units: seq<Unit>, i: nat, lim: Limits)
    returns (more: seq<Chunk>, next: nat, done: bool)
    requires i < |units|
    ensures i < next <= |units| && (done <==> next == |units|)
    ensures more + ChunksFrom(text, page, units, next, lim) == chunks + ChunksFrom(text, page, units, i, lim)
  {
    hide End, NextStart, Strip, ActiveHeading;
    var j, heading := TakeWindow(units, i, lim);
    var a, b := units[i].start, units[j - 1].end;
    more := chunks + [Chunk(Strip(Cut(text, a, b)), page, a, b, heading)];
    next, done := j, true;
    if j < |units| {
      NextStartBounds(units, i, j, lim);
      next := StepBack(units, i, j, lim);
      done := false;
    }
  }

  /** `chunk_text` */
  method ChunkText(text: string, page: Option<int>, lim: Limits, isUpper: string -> bool) returns (chunks: seq<Chunk>)
    requires lim.maxWords >= 1
    ensures chunks == Chunks(text, page, lim, isUpper)
  {
    hide Units, ChunksFrom;
    var units := BuildUnits(text, lim.maxWords, isUpper);
    chunks := [];
    var i, done := 0, |units| == 0;
    while !done
      invariant i <= |units| && (done <==> i == |units|)
      invariant chunks + ChunksFrom(text, page, units, i, lim) == Chunks(text, page, lim, isUpper)
      decreases |units| - i
    {
      chunks, i, done := AppendChunk(chunks, text, page, units, i, lim);
    }
    assert ChunksFrom(text, page, units, |units|, lim) == [] by { NoChunks(text, page, units, lim); }
  }

  /** What a reader of the chunks may rely on, whatever the text and the limits. */
  ghost predicate ChunksSound(text: string, chunks: seq<Chunk>) {
    && (forall k :: 0 <= k < |chunks| ==>
          && chunks[k].charStart < chunks[k].charEnd <= |text|
          && chunks[k].text == text[chunks[k].charStart..chunks[k].charEnd])
    && (forall k :: 0 <= k < |chunks| - 1 ==>
          && chunks[k].charStart < chunks[k + 1].charStart
          && chunks[k].charEnd <= chunks[k + 1].charEnd)
    && (forall p :: 0 <= p < |text| && !IsSpace(text[p]) ==> InSomeChunk(chunks, p))
  }

  ghost predicate InSomeChunk(chunks: seq<Chunk>, p: nat) {
    exists k :: 0 <= k < |chunks| && chunks[k].charStart <= p < chunks[k].charEnd
  }

  /** A window's chunk is a slice with visible ends, and it covers its units. */
  lemma ChunkIsSlice(text: string, page: Option<int>, units: seq<Unit>, w: Window, maxWords: nat)
    requires UnitsTile(text, units, maxWords, 0, |text|) && w.first < w.end <= |units|
    ensures var c := ChunkOf(text, page, units, w);
            c.charStart < c.charEnd <= |text| && c.text == text[c.charStart..c.charEnd]
    ensures forall u :: w.first <= u < w.end ==>
              units[w.first].start <= units[u].start < units[u].end <= units[w.end - 1].end
  {
    hide IsSpace, Tiles, Strip, ActiveHeading, UnitOk;
    var spans := UnitSpans(units);
    forall u | w.first <= u < w.end
      ensures units[w.first].start <= units[u].start < units[u].end <= units[w.end - 1].end
    {
      OrderOfSpans(text, spans, w.first, u);
      OrderOfSpans(text, spans, u, w.end - 1);
    }
    TileAt(text, spans, 0, |text|, w.first);
    TileAt(text, spans, 0, |text|, w.end - 1);
    var a, b := units[w.first].start, units[w.end - 1].end;
    assert units[w.first].end <= b;
    StripTight(text[a..b]);
  }

  lemma OrderOfSpans(text: string, spans: seq<Span>, u: nat, v: nat)
    requires Tiles(text, spans, 0, |text|) && u <= v < |spans|
    ensures spans[u].start < spans[u].end && spans[u].start <= spans[v].start && spans[u].end <= spans[v].end
    ensures u < v ==> spans[u].start < spans[v].start
  {
    hide IsSpace, Tiles;
    TileAt(text, spans, 0, |text|, u);
    TileAt(text, spans, 0, |text|, v);
    if u < v { TilesInOrder(text, spans, 0, |text|, u, v); }
  }

  /**
   * The chunks of any text, under any limits: each is the slice it says it is, starts strictly increase,
   * ends never decrease, and every visible character of the text lies in some chunk.
   */
  lemma ChunksAreSound(text: string, page: Option<int>, lim: Limits, isUpper: string -> bool)
    requires lim.maxWords >= 1
    ensures ChunksSound(text, Chunks(text, page, lim, isUpper))
  {
    hide IsSpace, Tiles, UnitOk, Units, Windows, ChunksFrom, ChunkOf, InSomeChunk, Marching;
    var units := Units(text, 0, "", lim.maxWords, isUpper);
    var ws, chunks := Windows(units, 0, lim), Chunks(text, page, lim, isUpper);
    UnitsAreTiles(text, 0, "", lim.maxWords, isUpper);
    WindowsMarch(units, 0, lim);
    ChunksFollowWindows(text, page, units, 0, lim);
    forall k | 0 <= k < |chunks|
      ensures chunks[k].charStart < chunks[k].charEnd <= |text|
      ensures chunks[k].text == text[chunks[k].charStart..chunks[k].charEnd]
    {
      ChunkIsSlice(text, page, units, ws[k], lim.maxWords);
    }
    forall k | 0 <= k < |chunks| - 1
      ensures chunks[k].charStart < chunks[k + 1].charStart && chunks[k].charEnd <= chunks[k + 1].charEnd
    {
      NextChunkMovesOn(text, page, units, ws, k, lim.maxWords);
    }
    forall p | 0 <= p < |text| && !IsSpace(text[p]) ensures InSomeChunk(chunks, p) {
      VisibleIsCovered(text, page, units, ws, chunks, p, lim.maxWords);
    }
  }

  lemma NextChunkMovesOn(text: string, page: Option<int>, units: seq<Unit>, ws: seq<Window>, k: nat, maxWords: nat)
    requires UnitsTile(text, units, maxWords, 0, |text|) && Marching(ws, 0, |units|) && k + 1 < |ws|
    ensures ws[k].first < ws[k].end <= |units| && ws[k + 1].first < ws[k + 1].end <= |units|
    ensures var c, next := ChunkOf(text, page, units, ws[k]), ChunkOf(text, page, units, ws[k + 1]);
            c.charStart < next.charStart && c.charEnd <= next.charEnd
  {
    hide IsSpace, Tiles, UnitOk, ActiveHeading, Strip;
    OrderOfSpans(text, UnitSpans(units), ws[k].first, ws[k + 1].first);
    OrderOfSpans(text, UnitSpans(units), ws[k].end - 1, ws[k + 1].end - 1);
  }

  lemma VisibleIsCovered(text: string, page: Option<int>, units: seq<Unit>, ws: seq<Window>, chunks: seq<Chunk>,
                         p: nat, maxWords: nat)
    requires UnitsTile(text, units, maxWords, 0, |text|) && Marching(ws, 0, |units|)
    requires |chunks| == |ws| && forall k :: 0 <= k < |ws| ==>
               ws[k].first < ws[k].end <= |units| && chunks[k] == ChunkOf(text, page, units, ws[k])
    requires p < |text| && !IsSpace(text[p])
    ensures InSomeChunk(chunks, p)
  {
    hide IsSpace, Tiles, UnitOk, ActiveHeading, Strip, Marching;
    var u := TilesCover(text, UnitSpans(units), 0, |text|, p);
    var k := MarchCovers(ws, 0, |units|, u);
    ChunkIsSlice(text, page, units, ws[k], maxWords);
    assert chunks[k].charStart <= p < chunks[k].charEnd;
  }

  /** The words of a window's text are at most those of its units. */
  lemma {:induction false} WordsOfWindow(text: string, units: seq<Unit>, i: nat, j: nat, maxWords: nat)
    requires UnitsTile(text, units, maxWords, 0, |text|) && i < j <= |units|
    ensures units[i].start < units[j - 1].end <= |text|
    ensures WordCount(text[units[i].start..units[j - 1].end]) <= Load(units, i, j)
    decreases j
  {
    hide IsSpace, Tiles, Words;
    var last := units[j - 1];
    assert last in units && UnitOk(text, last, maxWords);
    if i + 1 < j {
      WordsOfWindow(text, units, i, j - 1, maxWords);
      TileGap(text, UnitSpans(units), 0, |text|, j - 2);
      WordCountPiece(text, units[i].start, units[j - 2].end, last.start, last.end);
    }
  }

  /** No chunk of any text holds more words than the larger of the limit and the longest heading. */
  lemma ChunksAreBounded(text: string, page: Option<int>, lim: Limits, isUpper: string -> bool, k: nat)
    requires lim.maxWords >= 1 && k < |Chunks(text, page, lim, isUpper)|
    ensures WordCount(Chunks(text, page, lim, isUpper)[k].text) <= Max(lim.maxWords, HEADING_WORDS)
  {
    hide IsSpace, Tiles, UnitOk, Units, ChunksFrom, Words, Marching, Windows, End, NextStart, ChunkOf, UnitsTile, Load,
      WordCount;
    var units := Units(text, 0, "", lim.maxWords, isUpper);
    UnitsAreTiles(text, 0, "", lim.maxWords, isUpper);
    ChunksFollowWindows(text, page, units, 0, lim);
    var ws := Windows(units, 0, lim);
    assert Chunks(text, page, lim, isUpper)[k] == ChunkOf(text, page, units, ws[k]);
    WindowsAreEnds(units, 0, lim, k);
    WindowIsBounded(text, page, units, ws[k], lim);
  }

  lemma WindowIsBounded(text: string, page: Option<int>, units: seq<Unit>, w: Window, lim: Limits)
    requires UnitsTile(text, units, lim.maxWords, 0, |text|)
    requires w.first < w.end <= |units| && w.end == End(units, w.first, lim)
    ensures WordCount(ChunkOf(text, page, units, w).text) <= Max(lim.maxWords, HEADING_WORDS)
  {
    hide Tiles, Words, IsSpace;
    assert units[w.first] in units;
    WindowLoad(units, w.first, w.first, lim);
    ChunkIsSlice(text, page, units, w, lim.maxWords);
    WordsOfWindow(text, units, w.first, w.end, lim.maxWords);
  }

  lemma {:induction false} WindowsAreEnds(units: seq<Unit>, i: nat, lim: Limits, k: nat)
    requires i <= |units| && k < |Windows(units, i, lim)|
    ensures var ws := Windows(units, i, lim);
            && ws[k].first < |units| && ws[k].end == End(units, ws[k].first, lim)
            && (k + 1 < |ws| ==> ws[k + 1].first == NextStart(units, ws[k].first, ws[k].end, lim))
    decreases k
  {
    hide End, NextStart;
    if k > 0 {
      var j := End(units, i, lim);
      NextStartBounds(units, i, j, lim);
      WindowsAreEnds(units, NextStart(units, i, j, lim), lim, k - 1);
    }
  }

  /** A restart at `next` shares no more words than allowed, unless it is one unit, and could not share one unit more. */
  ghost predicate OverlapFits(units: seq<Unit>, w: Window, next: nat, lim: Limits)
    requires w.first < next <= w.end <= |units|
  {
    && (w.end - next <= 1 || Load(units, next, w.end) <= lim.overlap)
    && (w.first + 1 < w.end ==> next < w.end)
    && (w.first + 1 < next ==> Load(units, next, w.end) >= lim.overlap || Load(units, next - 1, w.end) > lim.overlap)
  }

  /** Consecutive chunks share as many words as fit the overlap limit, and at least one unit if there is one to share. */
  lemma ChunksOverlap(text: string, lim: Limits, isUpper: string -> bool, k: nat)
    requires lim.maxWords >= 1
    requires k + 1 < |Windows(Units(text, 0, "", lim.maxWords, isUpper), 0, lim)|
    ensures var units := Units(text, 0, "", lim.maxWords, isUpper);
            var w, next := Windows(units, 0, lim)[k], Windows(units, 0, lim)[k + 1];
            w.first < next.first <= w.end <= |units| && OverlapFits(units, w, next.first, lim)
  {
    var units := Units(text, 0, "", lim.maxWords, isUpper);
    UnitsAreTiles(text, 0, "", lim.maxWords, isUpper);
    UnitsHaveWords(text, units, lim.maxWords);
    WindowsAreEnds(units, 0, lim, k);
    hide *;
    OverlapIsBest(units, Windows(units, 0, lim)[k], lim);
  }

  lemma OverlapIsBest(units: seq<Unit>, w: Window, lim: Limits)
    requires w.first < w.end <= |units| && forall u :: u in units ==> Size(u) >= 1
    ensures var next := NextStart(units, w.first, w.end, lim);
            w.first < next <= w.end && OverlapFits(units, w, next, lim)
  {
    NextOverlap(units, w.first, w.end, lim);
    NextIsMaximal(units, w.first, w.end, lim);
  }

  lemma UnitsHaveWords(text: string, units: seq<Unit>, maxWords: nat)
    requires UnitsTile(text, units, maxWords, 0, |text|)
    ensures forall u :: u in units ==> Size(u) >= 1
  {
    hide Tiles;
  }

  /** A window ends before unit `k`: no unit is left, it has enough words, a heading comes, or the unit does not fit. */
  ghost predicate StopsAt(units: seq<Unit>, i: nat, k: nat, lim: Limits)
    requires i < k <= |units|
  {
    || k == |units|
    || Load(units, i, k) >= lim.target
    || (units[k].isHeading && Load(units, i, k) >= HEADING_BREAK_WORDS)
    || Load(units, i, k) + Size(units[k]) > lim.maxWords
  }

  lemma {:induction false} FirstStop(units: seq<Unit>, i: nat, j: nat, lim: Limits)
    requires i <= j <= |units| && i < |units|
    requires i < j ==> Load(units, i, j) < lim.target
    ensures var end := WindowEnd(units, i, j, Load(units, i, j), lim);
            && Max(i + 1, j) <= end <= |units| && StopsAt(units, i, end, lim)
            && forall k :: Max(i + 1, j) <= k < end ==> !StopsAt(units, i, k, lim)
    decreases |units| - j
  {
    if j < |units| {
      assert Load(units, i, j + 1) == Load(units, i, j) + Size(units[j]);
      if i == j { assert Load(units, i, j) == 0; }
      if WindowEnd(units, i, j, Load(units, i, j), lim) > j && Load(units, i, j + 1) < lim.target {
        FirstStop(units, i, j + 1, lim);
      }
    }
  }

  /** A window takes units up to the first place where it has to stop. */
  lemma EndIsFirstStop(units: seq<Unit>, i: nat, lim: Limits)
    requires i < |units|
    ensures var end := End(units, i, lim);
            i < end <= |units| && StopsAt(units, i, end, lim) && forall k :: i < k < end ==> !StopsAt(units, i, k, lim)
  {
    assert Load(units, i, i) == 0;
    FirstStop(units, i, i, lim);
  }

  /** The heading of a chunk is the first one that some unit of its window is under. */
  lemma {:induction false} HeadingIsFirst(units: seq<Unit>, i: nat, j: nat)
    requires i < j <= |units|
    ensures var heading := ActiveHeading(units, i, j);
            if heading == "" then forall k :: i <= k < j ==> units[k].heading == ""
            else exists k :: i <= k < j && units[k].heading == heading && forall m :: i <= m < k ==> units[m].heading == ""
    decreases j
  {
    if i + 1 < j {
      HeadingIsFirst(units, i, j - 1);
      var before := ActiveHeading(units, i, j - 1);
      if before != "" {
        var k :| i <= k < j - 1 && units[k].heading == before && forall m :: i <= m < k ==> units[m].heading == "";
        assert ActiveHeading(units, i, j) == units[k].heading;
      }
    }
  }

  /** A run that reaches `k` stops there if the target is met, and otherwise goes on with all words since `i`. */
  lemma {:induction false} RunAt(units: seq<Unit>, i: nat, m: nat, k: nat, lim: Limits)
    requires i <= m < k <= |units| && k <= WindowEnd(units, i, m, Load(units, i, m), lim)
    ensures WindowEnd(units, i, m, Load(units, i, m), lim) ==
            if Load(units, i, k) >= lim.target then k else WindowEnd(units, i, k, Load(units, i, k), lim)
    decreases k - m
  {
    assert Load(units, i, m + 1) == Load(units, i, m) + Size(units[m]);
    if m + 1 < k {
      RunAt(units, i, m + 1, k, lim);
    }
  }

  /** When the next window brings a new unit: it starts afresh, or the unit after the overlap still fits it. */
  ghost predicate Room(units: seq<Unit>, next: nat, j: nat, lim: Limits)
    requires next <= j < |units|
  {
    || next == j
    || (Load(units, next, j) < lim.target
        && Load(units, next, j) + Size(units[j]) <= lim.maxWords
        && !(units[j].isHeading && Load(units, next, j) >= HEADING_BREAK_WORDS))
  }

  /** Consecutive windows need not end later; they do exactly when there is room after the overlap. */
  lemma NextEndsLaterIff(units: seq<Unit>, i: nat, lim: Limits)
    requires i < |units| && End(units, i, lim) < |units|
    ensures var j := End(units, i, lim);
            var next := NextStart(units, i, j, lim);
            next <= j && (j < End(units, next, lim) <==> Room(units, next, j, lim))
  {
    var j := End(units, i, lim);
    var next := NextStart(units, i, j, lim);
    NextStartBounds(units, i, j, lim);
    EndsNeverDecrease(units, i, next, lim);
    if next < j {
      assert Load(units, next, next) == 0;
      RunAt(units, next, next, j, lim);
    }
  }

  // ----- A text whose second chunk adds nothing

  lemma OneWord(s: string)
    requires s != "" && forall k :: 0 <= k < |s| ==> !IsSpace(s[k])
    ensures WordCount(s) == 1
  {
    assert WordEnd(s, 0) == |s|;
    assert Words(s, |s|) == [];
  }

  lemma ThreeWords(s: string)
    requires s == "b c d."
    ensures WordCount(s) == 3
  {
    assert WordEnd(s, 0) == 1 && WordEnd(s, 2) == 3 && WordEnd(s, 4) == 6;
    assert Words(s, 6) == [] && Words(s, 4) == [Span(4, 6)];
    assert Words(s, 3) == Words(s, 4) && Words(s, 2) == [Span(2, 3)] + Words(s, 3);
    assert Words(s, 1) == Words(s, 2);
  }

  lemma EndsOfExample(t: string)
    requires t == "a. b c d. e."
    ensures SentenceEnd(t, 0) == 2 && SentenceEnd(t, 2) == 9 && SentenceEnd(t, 9) == 12
  {
    assert SentenceEnd(t, 1) == 2 && SentenceEnd(t, 0) == 2;
    assert SentenceEnd(t, 8) == 9 && SentenceEnd(t, 7) == 9 && SentenceEnd(t, 6) == 9 && SentenceEnd(t, 5) == 9;
    assert SentenceEnd(t, 4) == 9 && SentenceEnd(t, 3) == 9 && SentenceEnd(t, 2) == 9;
    assert SentenceEnd(t, 11) == 12 && SentenceEnd(t, 10) == 12 && SentenceEnd(t, 9) == 12;
  }

  lemma FirstSentences(t: string)
    requires t == "a. b c d. e."
    ensures Sentences(t, 0) == [Span(0, 2), Span(3, 9), Span(10, 12)]
  {
    EndsOfExample(t);
    assert IsSpace(t[2]) && IsSpace(t[9]) && !IsSpace(t[0]) && !IsSpace(t[1]) && !IsSpace(t[3]) && !IsSpace(t[8])
           && !IsSpace(t[10]) && !IsSpace(t[11]);
    hide IsSpace, SentenceEnd, Trim;
    SolidTrim(t, 0, 2, 0);
    SolidTrim(t, 2, 9, 3);
    SolidTrim(t, 9, 12, 10);
    assert Sentences(t, 12) == [];
    assert Sentences(t, 9) == [Span(10, 12)];
    assert Sentences(t, 2) == [Span(3, 9)] + Sentences(t, 9);
  }

  lemma SolidTrim(s: string, lo: nat, hi: nat, first: nat)
    requires lo <= first < hi <= |s| && first <= lo + 1
    requires (first > lo ==> IsSpace(s[lo])) && !IsSpace(s[first]) && !IsSpace(s[hi - 1])
    ensures Trim(s, lo, hi) == Span(first, hi)
  {
    assert TrimLeft(s, lo, hi) == first;
    assert TrimRight(s, first, hi) == hi;
  }

  lemma ParagraphOfExample(t: string, isUpper: string -> bool)
    requires t == "a. b c d. e." && !isUpper(t)
    ensures ParagraphEnd(t, 0) == 12 && Trim(t, 0, 12) == Span(0, 12) && t[0..12] == t && !IsHeading(t, isUpper)
  {
    SolidTrim(t, 0, 12, 0);
    assert LineEnd(t, 0) == 12;
    StripTight(t);
  }

  lemma RowsOfText(t: string)
    requires t == "a. b c d. e."
    ensures SentenceRows(t, 0, Sentences(t, 0)) == [Sentence("a.", 0, 2), Sentence("b c d.", 3, 9), Sentence("e.", 10, 12)]
  {
    FirstSentences(t);
    SlicesOfText(t);
    hide Sentences, IsSpace;
    var rows := SentenceRows(t, 0, Sentences(t, 0));
    assert |rows| == 3 && rows[0] == Sentence("a.", 0, 2) && rows[1] == Sentence("b c d.", 3, 9)
           && rows[2] == Sentence("e.", 10, 12);
  }

  lemma SlicesOfText(t: string)
    requires t == "a. b c d. e."
    ensures t[0..2] == "a." && t[3..9] == "b c d." && t[10..12] == "e."
  {
  }

  lemma UnitsOfExample(t: string, isUpper: string -> bool)
    requires t == "a. b c d. e." && !isUpper(t)
    ensures Units(t, 0, "", 5, isUpper) ==
            [Unit("a.", 0, 2, "", false), Unit("b c d.", 3, 9, "", false), Unit("e.", 10, 12, "", false)]
  {
    ParagraphOfExample(t, isUpper);
    RowsOfText(t);
    RowsOfExample(SentenceRows(t, 0, Sentences(t, 0)));
    assert Units(t, 12, "", 5, isUpper) == [];
    hide Sentences, SentenceRows, UnitsOfRows, IsHeading, Trim, ParagraphEnd, IsSpace;
  }

  lemma WholeSentence(row: Sentence)
    requires WordCount(row.value) <= 5 && VisibleEnds(row.value) && row.end == row.start + |row.value|
    ensures SentencePieces(row.value, 5) == [Span(0, |row.value|)]
    ensures SentenceUnits(row.value, row.start, "", [Span(0, |row.value|)]) == [Unit(row.value, row.start, row.end, "", false)]
  {
    assert row.value[0..|row.value|] == row.value;
  }

  lemma RowsOfExample(rows: seq<Sentence>)
    requires rows == [Sentence("a.", 0, 2), Sentence("b c d.", 3, 9), Sentence("e.", 10, 12)]
    ensures forall r :: r in rows ==> VisibleEnds(r.value)
    ensures UnitsOfRows(rows, "", 5) ==
            [Unit("a.", 0, 2, "", false), Unit("b c d.", 3, 9, "", false), Unit("e.", 10, 12, "", false)]
  {
    OneWord("a.");
    ThreeWords("b c d.");
    OneWord("e.");
    WholeSentence(rows[0]);
    WholeSentence(rows[1]);
    WholeSentence(rows[2]);
    hide SentencePieces, SentenceUnits, WordCount;
    var one, two := rows[1..], rows[2..];
    assert one[0] == rows[1] && one[1..] == two && two[0] == rows[2] && two[1..] == [];
    assert UnitsOfRows([], "", 5) == [];
    assert UnitsOfRows(two, "", 5) == [Unit("e.", 10, 12, "", false)];
    assert UnitsOfRows(one, "", 5) == [Unit("b c d.", 3, 9, "", false)] + UnitsOfRows(two, "", 5);
  }

  /** Ends do not strictly increase: the second chunk of this text only repeats the last unit of the first. */
  lemma ChunkMayAddNothing(text: string, page: Option<int>, lim: Limits, isUpper: string -> bool)
    requires text == "a. b c d. e." && lim == Limits(3, 1, 5) && !isUpper(text)
    ensures var chunks := Chunks(text, page, lim, isUpper);
            && |chunks| >= 2 && chunks[0].charStart == 0 && chunks[1].charStart == 3
            && chunks[0].charEnd == chunks[1].charEnd == 9
  {
    UnitsOfExample(text, isUpper);
    var units := Units(text, 0, "", 5, isUpper);
    SizesOfExample(units);
    hide Units, WordCount;
    WindowsOfExample(units, lim);
    FirstTwoChunks(text, page, units, lim);
  }

  lemma SizesOfExample(units: seq<Unit>)
    requires |units| == 3 && units[0].text == "a." && units[1].text == "b c d."
    ensures Size(units[0]) == 1 && Size(units[1]) == 3
  {
    OneWord(units[0].text);
    ThreeWords(units[1].text);
  }

  lemma FirstTwoChunks(text: string, page: Option<int>, units: seq<Unit>, lim: Limits)
    requires |units| == 3 && End(units, 0, lim) == 2 && NextStart(units, 0, 2, lim) == 1 && End(units, 1, lim) == 2
    ensures var chunks := ChunksFrom(text, page, units, 0, lim);
            && |chunks| >= 2
            && chunks[0] == ChunkOf(text, page, units, Window(0, 2)) && chunks[1] == ChunkOf(text, page, units, Window(1, 2))
  {
    hide End, NextStart, ChunkOf;
    assert ChunksFrom(text, page, units, 0, lim) ==
           [ChunkOf(text, page, units, Window(0, 2))] + ChunksFrom(text, page, units, 1, lim);
    assert ChunksFrom(text, page, units, 1, lim)[0] == ChunkOf(text, page, units, Window(1, 2));
  }

  lemma WindowsOfExample(units: seq<Unit>, lim: Limits)
    requires lim == Limits(3, 1, 5) && |units| == 3 && !units[1].isHeading
    requires Size(units[0]) == 1 && Size(units[1]) == 3
    ensures End(units, 0, lim) == 2 && NextStart(units, 0, 2, lim) == 1 && End(units, 1, lim) == 2
  {
    hide Size;
    assert WindowEnd(units, 0, 1, 1, lim) == 2;
    assert OverlapStart(units, 0, 1, 0, 2, lim) == 1;
  }
}
