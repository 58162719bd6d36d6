/**
 * Embedding a batch of documents, splitting it in two whenever the backend rejects it, so that one bad
 * document costs only itself.  `Bisect` is the outcome as a function of the backend's answers; the
 * method `EmbedGroup` is shown to produce it while it updates the scan's tally in place.
 */
module Embedding {
  import opened Basics
  import opened Wrappers
  import opened Chunker

  datatype Vector = Vector(components: seq<real>)

  datatype Mode = Content | Metadata

  /**
   * A file that has been read and cut into chunks, waiting to be embedded and written.  `extension` is what the
   * coverage counters call it, `suffix` what the catalog stores.
   */
  datatype Prepared = Prepared(
    key: string, path: string, filename: string, extension: string, suffix: string, size: int, mtime: int,
    digest: string, previous: Option<nat>, title: string, chunks: seq<Chunk>, mode: Mode)

  /** What a backend call comes to: vectors, an ordinary exception, or the failure of the backend itself. */
  datatype Outcome = Vectors(vectors: seq<Vector>) | Raised | BackendFailed

  /** Backend answers, by the number of the call and the texts it is given. */
  type Embedder = (nat, seq<string>) -> Outcome

  ghost predicate BackendUp(embed: Embedder) {
    forall n: nat, xs :: !embed(n, xs).BackendFailed?
  }

  type Pair = (Prepared, seq<Vector>)

  // ----- Counters

  datatype Counts = Counts(seen: int, content: int, metadata: int, ignored: int, failed: int) {
    function Plus(c: Counts): Counts {
      Counts(seen + c.seen, content + c.content, metadata + c.metadata, ignored + c.ignored, failed + c.failed)
    }

    /** Every file seen is counted once, as content, metadata, ignored or failed. */
    predicate Balanced() {
      seen == content + metadata + ignored + failed
    }
  }

  const NO_COUNTS := Counts(0, 0, 0, 0, 0)

  datatype Tally = Tally(
    totals: Counts, breakdown: map<string, Counts>, completed: int, kept: int,
    created: int, modified: int, deleted: int, embedded: int)

  function Seen(): Counts { Counts(1, 0, 0, 0, 0) }

  function Classified(mode: Mode): (c: Counts)
    ensures c.seen == 0 && c.failed == 0 && c.ignored == 0
  {
    if mode == Content then Counts(0, 1, 0, 0, 0) else Counts(0, 0, 1, 0, 0)
  }

  function Skipped(): (c: Counts)
    ensures c.seen == 0 && c.failed == 0 && c.ignored == 1 && c.content + c.metadata == 0
  {
    Counts(0, 0, 0, 1, 0)
  }

  lemma ClassifiedOnce(mode: Mode)
    ensures Classified(mode).content + Classified(mode).metadata == 1
  {
  }

  /** A file that is seen and counted once is balanced. */
  lemma OneIsBalanced(c: Counts)
    requires c.seen == 0 && c.failed == 0 && c.content + c.metadata + c.ignored == 1
    ensures Seen().Plus(c).Balanced()
  {
  }

  /** A classified file turns out to be a failed one. */
  function Failure(mode: Mode): Counts {
    if mode == Content then Counts(0, -1, 0, 0, 1) else Counts(0, 0, -1, 0, 1)
  }

  /** Adds to the totals and to the row of one extension. */
  function Count(t: Tally, extension: string, c: Counts): (r: Tally)
    ensures r.totals == t.totals.Plus(c) && r.completed == t.completed && r.kept == t.kept
  {
    t.(totals := t.totals.Plus(c), breakdown := AddTo(t.breakdown, extension, c))
  }

  function AddTo(breakdown: map<string, Counts>, extension: string, c: Counts): map<string, Counts> {
    breakdown[extension := (if extension in breakdown then breakdown[extension] else NO_COUNTS).Plus(c)]
  }

  /** The counts of the files with one extension, or of all files. */
  function CountsOf(t: Tally, extension: Option<string>): Counts {
    match extension
    case None => t.totals
    case Some(e) => if e in t.breakdown then t.breakdown[e] else NO_COUNTS
  }

  /** Of all files and of those with one extension there are so many more; other counts stay. */
  ghost predicate CountsChange(t: Tally, t': Tally, extension: string, mode: Mode, seen: int, classified: int,
                               ignored: int, failed: int)
  {
    forall e :: var was, now := CountsOf(t, e), CountsOf(t', e);
      if e == None || e == Some(extension) then
        && now.seen == was.seen + seen && now.ignored == was.ignored + ignored && now.failed == was.failed + failed
        && now.content == was.content + (if mode == Content then classified else 0)
        && now.metadata == was.metadata + (if mode == Metadata then classified else 0)
      else now == was
  }

  /** One file more is completed, as a failed one and not as what it was classified as. */
  ghost predicate FileFailed(t: Tally, t': Tally, extension: string, mode: Mode) {
    && CountsChange(t, t', extension, mode, 0, -1, 0, 1)
    && t'.completed == t.completed + 1 && t'.kept == t.kept && t'.embedded == t.embedded
    && t'.created == t.created && t'.modified == t.modified && t'.deleted == t.deleted
  }

  lemma CountMeans(t: Tally, extension: string, c: Counts, completed: int, mode: Mode, classified: int)
    requires c.content == if mode == Content then classified else 0
    requires c.metadata == if mode == Metadata then classified else 0
    ensures CountsChange(t, Count(t, extension, c).(completed := completed), extension, mode, c.seen, classified,
                         c.ignored, c.failed)
  {
  }

  lemma FailureMeans(t: Tally, extension: string, mode: Mode)
    ensures FileFailed(t, Count(t, extension, Failure(mode)).(completed := t.completed + 1), extension, mode)
  {
    hide AddTo, CountsChange;
    CountMeans(t, extension, Failure(mode), t.completed + 1, mode, -1);
  }

  lemma FailMeans(t: Tally, item: Prepared)
    ensures FileFailed(t, Fail(t, item), item.extension, item.mode)
  {
    FailureMeans(t, item.extension, item.mode);
  }

  /** `_record_document_failure` */
  function Fail(t: Tally, item: Prepared): Tally {
    Count(t, item.extension, Failure(item.mode)).(completed := t.completed + 1)
  }

  function FailAll(t: Tally, items: seq<Prepared>): Tally
    decreases |items|
  {
    if items == [] then t else FailAll(Fail(t, items[0]), items[1..])
  }

  /** `calls` numbers the backend calls, `failures` counts those of them that failed as a backend. */
  class ScanResult {
    var tally: Tally
    var calls: nat
    ghost var failures: nat

    constructor ()
      ensures tally == Tally(NO_COUNTS, map[], 0, 0, 0, 0, 0, 0) && calls == 0 && failures == 0
    {
      tally, calls, failures := Tally(NO_COUNTS, map[], 0, 0, 0, 0, 0, 0), 0, 0;
    }

    method RecordFailure(item: Prepared)
      modifies this`tally
      ensures tally == Fail(old(tally), item) && FileFailed(old(tally), tally, item.extension, item.mode)
    {
      FailMeans(tally, item);
      hide AddTo, FileFailed;
      tally := Fail(tally, item);
    }
  }

  // ----- Embedding inputs

  function EmbeddingInput(chunk: Chunk, item: Prepared): string {
    "Document: " + (if item.title != "" then item.title else item.filename)
    + (if chunk.heading != "" then "\nSection: " + chunk.heading else "")
    + "\n\n" + chunk.text
  }

  function ItemInputs(item: Prepared): (r: seq<string>)
    ensures |r| == |item.chunks|
  {
    seq(|item.chunks|, k requires 0 <= k < |item.chunks| => EmbeddingInput(item.chunks[k], item))
  }

  function Inputs(items: seq<Prepared>): seq<string> {
    if items == [] then [] else ItemInputs(items[0]) + Inputs(items[1..])
  }

  /** Hands each document its own stretch of the vectors. */
  function Distribute(items: seq<Prepared>, vectors: seq<Vector>): (r: seq<Pair>)
    requires |vectors| == |Inputs(items)|
    ensures |r| == |items|
  {
    if items == [] then [] else
      var n := |items[0].chunks|;
      [(items[0], vectors[..n])] + Distribute(items[1..], vectors[n..])
  }

  /** How many texts the first `i` documents have. */
  function Offset(items: seq<Prepared>, i: nat): nat
    requires i <= |items|
  {
    if i == 0 then 0 else Offset(items, i - 1) + |items[i - 1].chunks|
  }

  lemma {:induction false} OffsetRest(items: seq<Prepared>, i: nat)
    requires 0 < i <= |items|
    ensures Offset(items, i) == |items[0].chunks| + Offset(items[1..], i - 1)
  {
    if i > 1 { OffsetRest(items, i - 1); }
  }

  /** What the backend is to be given for a chunk: its document's name, its heading if it has one, and its text. */
  ghost function InputFor(title: string, filename: string, chunk: Chunk): string {
    var name := if title == "" then filename else title;
    if chunk.heading == "" then "Document: " + name + "\n\n" + chunk.text
    else "Document: " + name + "\nSection: " + chunk.heading + "\n\n" + chunk.text
  }

  lemma InputIs(chunk: Chunk, item: Prepared)
    ensures EmbeddingInput(chunk, item) == InputFor(item.title, item.filename, chunk)
    ensures |EmbeddingInput(chunk, item)| >= |chunk.text|
    ensures EmbeddingInput(chunk, item)[|EmbeddingInput(chunk, item)| - |chunk.text|..] == chunk.text
  {
    var name := if item.title == "" then item.filename else item.title;
    if chunk.heading == "" {
      assert "Document: " + name + "" + "\n\n" + chunk.text == "Document: " + name + "\n\n" + chunk.text;
    } else {
      assert "Document: " + name + ("\nSection: " + chunk.heading) + "\n\n" + chunk.text
             == "Document: " + name + "\nSection: " + chunk.heading + "\n\n" + chunk.text;
    }
  }

  lemma SliceOfTail<T>(s: seq<T>, n: nat, a: nat, b: nat)
    requires n <= |s| && a <= b <= |s| - n
    ensures s[n..][a..b] == s[n + a..n + b]
  {
  }

  /** The texts of a document are those at its own places. */
  lemma {:induction false} TextsAt(items: seq<Prepared>, i: nat)
    requires i < |items|
    ensures var (at, n) := (Offset(items, i), |items[i].chunks|);
            at + n <= |Inputs(items)| && Inputs(items)[at..at + n] == ItemInputs(items[i])
    decreases |items|
  {
    hide EmbeddingInput;
    var n := |items[0].chunks|;
    assert Inputs(items)[..n] == ItemInputs(items[0]) && Inputs(items)[n..] == Inputs(items[1..]);
    if i > 0 {
      OffsetRest(items, i);
      TextsAt(items[1..], i - 1);
      hide Inputs, ItemInputs, Offset;
      SliceOfTail(Inputs(items), n, Offset(items[1..], i - 1), Offset(items[1..], i - 1) + |items[i].chunks|);
    }
  }

  /** And so are its vectors. */
  lemma {:induction false} AtItsPlace(items: seq<Prepared>, vectors: seq<Vector>, i: nat)
    requires |vectors| == |Inputs(items)| && i < |items|
    ensures var (at, n) := (Offset(items, i), |items[i].chunks|);
            at + n <= |vectors| && Distribute(items, vectors)[i] == (items[i], vectors[at..at + n])
    decreases |items|
  {
    var n := |items[0].chunks|;
    TextsAt(items, i);
    if i > 0 {
      OffsetRest(items, i);
      AtItsPlace(items[1..], vectors[n..], i - 1);
      hide ItemInputs, Offset;
      SliceOfTail(vectors, n, Offset(items[1..], i - 1), Offset(items[1..], i - 1) + |items[i].chunks|);
    }
  }

  /** The vector is one that the backend returned for this text. */
  ghost predicate Answered(embed: Embedder, text: string, v: Vector) {
    exists n, texts, p :: AnsweredAt(embed, n, texts, p, text, v)
  }

  /** In call `n` the text and the vector are at the same place. */
  ghost predicate AnsweredAt(embed: Embedder, n: nat, texts: seq<string>, p: nat, text: string, v: Vector) {
    && p < |texts| && texts[p] == text
    && embed(n, texts).Vectors? && |embed(n, texts).vectors| == |texts| && embed(n, texts).vectors[p] == v
  }

  /** Each chunk of the document has a vector that the backend returned for its own text. */
  ghost predicate OwnVectors(embed: Embedder, p: Pair) {
    && |p.1| == |p.0.chunks|
    && forall k :: 0 <= k < |p.1| ==> Answered(embed, InputFor(p.0.title, p.0.filename, p.0.chunks[k]), p.1[k])
  }

  ghost predicate AllOwnVectors(embed: Embedder, pairs: seq<Pair>) {
    forall p :: p in pairs ==> OwnVectors(embed, p)
  }

  lemma DistributedAre(items: seq<Prepared>, embed: Embedder, n: nat, i: nat)
    requires embed(n, Inputs(items)).Vectors? && |embed(n, Inputs(items)).vectors| == |Inputs(items)| && i < |items|
    ensures OwnVectors(embed, Distribute(items, embed(n, Inputs(items)).vectors)[i])
  {
    hide EmbeddingInput, InputFor, Inputs, Distribute, Answered;
    var texts := Inputs(items);
    var vectors, at, item := embed(n, texts).vectors, Offset(items, i), items[i];
    TextsAt(items, i);
    AtItsPlace(items, vectors, i);
    var m := |item.chunks|;
    forall k | 0 <= k < m
      ensures Answered(embed, InputFor(item.title, item.filename, item.chunks[k]), vectors[at..at + m][k])
    {
      InputIs(item.chunks[k], item);
      assert texts[at + k] == texts[at..at + m][k] == EmbeddingInput(item.chunks[k], item);
      IsAnswered(embed, n, texts, at + k, texts[at + k], vectors[at + k]);
    }
  }

  lemma IsAnswered(embed: Embedder, n: nat, texts: seq<string>, p: nat, text: string, v: Vector)
    requires AnsweredAt(embed, n, texts, p, text, v)
    ensures Answered(embed, text, v)
  {
  }

  datatype Embedded = Embedded(pairs: seq<Pair>, failed: seq<Prepared>, calls: nat, chunks: nat, ok: bool)

  /** The second half is embedded only if the backend survived the first; nothing is kept if it did not. */
  function Join(left: Embedded, right: Embedded): Embedded {
    if !left.ok then left
    else Embedded(if right.ok then left.pairs + right.pairs else [], left.failed + right.failed,
                  right.calls, left.chunks + right.chunks, right.ok)
  }

  /** The outcome of embedding `items` when the next backend call is number `n`. */
  function Bisect(items: seq<Prepared>, embed: Embedder, n: nat): (e: Embedded)
    ensures !e.ok ==> e.pairs == []
    decreases |items|
  {
    if items == [] then Embedded([], [], n, 0, true)
    else if Inputs(items) == [] then Embedded(Distribute(items, []), [], n, 0, true)
    else
      var outcome := embed(n, Inputs(items));
      if outcome.BackendFailed? then Embedded([], [], n + 1, 0, false)
      else if outcome.Vectors? && |outcome.vectors| == |Inputs(items)| then
        Embedded(Distribute(items, outcome.vectors), [], n + 1, |outcome.vectors|, true)
      else if |items| > 1 then
        var middle := |items| / 2;
        var left := Bisect(items[..middle], embed, n + 1);
        Join(left, Bisect(items[middle..], embed, left.calls))
      else Embedded([], [items[0]], n + 1, 0, true)
  }

  lemma {:induction false} FailAllConcat(t: Tally, a: seq<Prepared>, b: seq<Prepared>)
    ensures FailAll(t, a + b) == FailAll(FailAll(t, a), b)
    decreases |a|
  {
    if a == [] {
      assert a + b == b;
    } else {
      assert (a + b)[1..] == a[1..] + b;
      FailAllConcat(Fail(t, a[0]), a[1..], b);
    }
  }

  lemma {:induction false} FailAllMeans(t: Tally, items: seq<Prepared>, embedded: int)
    ensures FailAll(t.(embedded := embedded), items) == FailAll(t, items).(embedded := embedded)
    ensures FailAll(t, items).embedded == t.embedded
    decreases |items|
  {
    hide AddTo;
    if items != [] { FailAllMeans(Fail(t, items[0]), items[1..], embedded); }
  }

  lemma FailOne(t: Tally, item: Prepared)
    ensures FailAll(t, [item]) == Fail(t, item) && FailAll(t, [item]).(embedded := t.embedded) == Fail(t, item)
  {
    hide AddTo;
    assert [item][1..] == [];
  }

  /** The embedded pairs of one accepted batch. */
  method Spread(items: seq<Prepared>, vectors: seq<Vector>) returns (embedded: seq<Pair>)
    requires |vectors| == |Inputs(items)|
    ensures embedded == Distribute(items, vectors)
  {
    embedded := [];
    var offset := 0;
    assert items[0..] == items && vectors[0..] == vectors;
    for k := 0 to |items|
      invariant 0 <= offset <= |vectors|
      invariant |vectors[offset..]| == |Inputs(items[k..])|
      invariant embedded + Distribute(items[k..], vectors[offset..]) == Distribute(items, vectors)
    {
      var item := items[k];
      assert items[k..][0] == item && items[k..][1..] == items[k + 1..];
      assert Inputs(items[k..]) == ItemInputs(item) + Inputs(items[k + 1..]);
      assert vectors[offset..][|item.chunks|..] == vectors[offset + |item.chunks|..];
      assert vectors[offset..][..|item.chunks|] == vectors[offset..offset + |item.chunks|];
      embedded := embedded + [(item, vectors[offset..offset + |item.chunks|])];
      offset := offset + |item.chunks|;
    }
  }

  /** `_embed_group`; `ok` is false when the backend itself failed and the exception propagates. */
  method EmbedGroup(items: seq<Prepared>, embed: Embedder, result: ScanResult) returns (embedded: seq<Pair>, ok: bool)
    modifies result
    ensures var e := Bisect(items, embed, old(result.calls));
            && embedded == e.pairs && ok == e.ok && result.calls == e.calls
            && result.failures == old(result.failures) + (if e.ok then 0 else 1)
            && result.tally == FailAll(old(result.tally), e.failed).(embedded := old(result.tally).embedded + e.chunks)
    decreases |items|, 1
  {
    hide Fail, Distribute;
    if items == [] {
      return [], true;
    }
    var inputs := Inputs(items);
    if inputs == [] {
      embedded := Spread(items, []);
      return embedded, true;
    }
    var outcome := embed(result.calls, inputs);
    result.calls := result.calls + 1;
    if outcome.BackendFailed? {
      result.failures := result.failures + 1;
      return [], false;
    }
    if outcome.Vectors? && |outcome.vectors| == |inputs| {
      result.tally := result.tally.(embedded := result.tally.embedded + |outcome.vectors|);
      embedded := Spread(items, outcome.vectors);
      return embedded, true;
    }
    if |items| > 1 {
      embedded, ok := EmbedHalves(items, embed, result);
    } else {
      FailOne(result.tally, items[0]);
      result.RecordFailure(items[0]);
      embedded, ok := [], true;
    }
  }

  /** The bisection step of `_embed_group`. */
  method EmbedHalves(items: seq<Prepared>, embed: Embedder, result: ScanResult) returns (embedded: seq<Pair>, ok: bool)
    requires |items| > 1
    modifies result
    ensures var middle := |items| / 2;
            var left := Bisect(items[..middle], embed, old(result.calls));
            var right := Bisect(items[middle..], embed, left.calls);
            var e := Join(left, right);
            && embedded == e.pairs && ok == e.ok && result.calls == e.calls
            && result.failures == old(result.failures) + (if e.ok then 0 else 1)
            && result.tally == FailAll(old(result.tally), e.failed).(embedded := old(result.tally).embedded + e.chunks)
    decreases |items|, 0
  {
    hide Fail, Bisect;
    ghost var tally := result.tally;
    var middle := |items| / 2;
    ghost var left := Bisect(items[..middle], embed, result.calls);
    embedded, ok := EmbedGroup(items[..middle], embed, result);
    if ok {
      ghost var right := Bisect(items[middle..], embed, left.calls);
      ghost var between := result.tally;
      var more;
      more, ok := EmbedGroup(items[middle..], embed, result);
      embedded := if ok then embedded + more else [];
      FailAllConcat(tally, left.failed, right.failed);
      FailAllMeans(FailAll(tally, left.failed), right.failed, tally.embedded + left.chunks);
      FailAllMeans(tally, left.failed, 0);
    }
  }

  // ----- What bisection guarantees

  function Items(pairs: seq<Pair>): (r: seq<Prepared>)
    ensures |r| == |pairs|
  {
    if pairs == [] then [] else [pairs[0].0] + Items(pairs[1..])
  }

  /** `all` is made of `kept` and `dropped`, each in its own order. */
  ghost predicate Interleaves<T>(all: seq<T>, kept: seq<T>, dropped: seq<T>)
    decreases |all|
  {
    if all == [] then kept == [] && dropped == []
    else
      || (kept != [] && kept[0] == all[0] && Interleaves(all[1..], kept[1..], dropped))
      || (dropped != [] && dropped[0] == all[0] && Interleaves(all[1..], kept, dropped[1..]))
  }

  lemma {:induction false} InterleavesConcat<T>(a: seq<T>, k: seq<T>, d: seq<T>, a': seq<T>, k': seq<T>, d': seq<T>)
    requires Interleaves(a, k, d) && Interleaves(a', k', d')
    ensures Interleaves(a + a', k + k', d + d')
    decreases |a|
  {
    if a == [] {
      assert a + a' == a' && k + k' == k' && d + d' == d';
    } else {
      assert (a + a')[1..] == a[1..] + a';
      if k != [] && k[0] == a[0] && Interleaves(a[1..], k[1..], d) {
        assert (k + k')[1..] == k[1..] + k';
        InterleavesConcat(a[1..], k[1..], d, a', k', d');
      } else {
        assert (d + d')[1..] == d[1..] + d';
        InterleavesConcat(a[1..], k, d[1..], a', k', d');
      }
    }
  }

  lemma {:induction false} InterleavesSelf<T>(a: seq<T>)
    ensures Interleaves(a, a, [])
    decreases |a|
  {
    if a != [] { InterleavesSelf(a[1..]); }
  }

  lemma {:induction false} InterleavesCount<T>(all: seq<T>, kept: seq<T>, dropped: seq<T>)
    requires Interleaves(all, kept, dropped)
    ensures |all| == |kept| + |dropped|
    ensures forall x :: x in all <==> x in kept || x in dropped
    decreases |all|
  {
    if all != [] {
      assert all == [all[0]] + all[1..];
      if kept != [] && kept[0] == all[0] && Interleaves(all[1..], kept[1..], dropped) {
        assert kept == [kept[0]] + kept[1..];
        InterleavesCount(all[1..], kept[1..], dropped);
      } else {
        assert dropped == [dropped[0]] + dropped[1..];
        InterleavesCount(all[1..], kept, dropped[1..]);
      }
    }
  }

  lemma {:induction false} ItemsConcat(a: seq<Pair>, b: seq<Pair>)
    ensures Items(a + b) == Items(a) + Items(b)
    decreases |a|
  {
    if a == [] {
      assert a + b == b;
    } else {
      assert (a + b)[1..] == a[1..] + b;
      ItemsConcat(a[1..], b);
    }
  }

  function VectorCount(pairs: seq<Pair>): nat {
    if pairs == [] then 0 else |pairs[0].1| + VectorCount(pairs[1..])
  }

  lemma {:induction false} VectorsConcat(a: seq<Pair>, b: seq<Pair>)
    ensures VectorCount(a + b) == VectorCount(a) + VectorCount(b)
    decreases |a|
  {
    if a == [] {
      assert a + b == b;
    } else {
      assert (a + b)[1..] == a[1..] + b;
      VectorsConcat(a[1..], b);
    }
  }

  lemma {:induction false} DistributeItems(items: seq<Prepared>, vectors: seq<Vector>)
    requires |vectors| == |Inputs(items)|
    ensures Items(Distribute(items, vectors)) == items && VectorCount(Distribute(items, vectors)) == |vectors|
    decreases |items|
  {
    if items != [] { DistributeItems(items[1..], vectors[|items[0].chunks|..]); }
  }

  /** Unless the backend itself fails, every document is embedded or recorded as failed, once, in order. */
  lemma {:induction false} NothingLost(items: seq<Prepared>, embed: Embedder, n: nat)
    ensures var e := Bisect(items, embed, n);
            && (e.ok ==> Interleaves(items, Items(e.pairs), e.failed) && VectorCount(e.pairs) == e.chunks)
    decreases |items|
  {
    hide Interleaves, Inputs, Distribute, Items;
    if items == [] {
      InterleavesSelf(items);
    } else if Inputs(items) == [] {
      DistributeItems(items, []);
      InterleavesSelf(items);
    } else {
      var outcome := embed(n, Inputs(items));
      if outcome.Vectors? && |outcome.vectors| == |Inputs(items)| {
        DistributeItems(items, outcome.vectors);
        InterleavesSelf(items);
      } else if !outcome.BackendFailed? {
        if |items| > 1 {
          var middle := |items| / 2;
          var left := Bisect(items[..middle], embed, n + 1);
          var right := Bisect(items[middle..], embed, left.calls);
          NothingLost(items[..middle], embed, n + 1);
          NothingLost(items[middle..], embed, left.calls);
          assert items == items[..middle] + items[middle..];
          ItemsConcat(left.pairs, right.pairs);
          VectorsConcat(left.pairs, right.pairs);
          if left.ok && right.ok {
            InterleavesConcat(items[..middle], Items(left.pairs), left.failed,
                              items[middle..], Items(right.pairs), right.failed);
          }
        } else {
          assert items == [items[0]];
          OneDropped(items[0]);
        }
      }
    }
  }

  /** A group fails to embed only if some backend call did. */
  lemma {:induction false} NeverFails(items: seq<Prepared>, embed: Embedder, n: nat)
    ensures BackendUp(embed) ==> Bisect(items, embed, n).ok
    decreases |items|
  {
    hide Inputs, Distribute;
    if |items| > 1 {
      NeverFails(items[..|items| / 2], embed, n + 1);
      NeverFails(items[|items| / 2..], embed, Bisect(items[..|items| / 2], embed, n + 1).calls);
    }
  }

  /** The backend does not give call `m` for these documents one vector for each text. */
  ghost predicate Refused(embed: Embedder, m: nat, items: seq<Prepared>) {
    var outcome := embed(m, Inputs(items));
    !(outcome.Vectors? && |outcome.vectors| == |Inputs(items)|)
  }

  /** A document is given up only after a call for it alone was refused. */
  lemma {:induction false} GivenUpAlone(items: seq<Prepared>, embed: Embedder, n: nat, item: Prepared)
    requires item in Bisect(items, embed, n).failed
    ensures item in items && exists m: nat :: n <= m < Bisect(items, embed, n).calls && Refused(embed, m, [item])
    decreases |items|
  {
    hide Inputs, Distribute, Refused;
    if |items| > 1 {
      var middle := |items| / 2;
      var left := Bisect(items[..middle], embed, n + 1);
      var right := Bisect(items[middle..], embed, left.calls);
      CallsLinear(items[..middle], embed, n + 1);
      CallsLinear(items[middle..], embed, left.calls);
      assert items == items[..middle] + items[middle..];
      if item in left.failed {
        GivenUpAlone(items[..middle], embed, n + 1, item);
      } else {
        GivenUpAlone(items[middle..], embed, left.calls, item);
      }
    } else {
      assert items == [items[0]] && item == items[0];
      assert Refused(embed, n, [item]) by { RefusedIs(embed, n, items); }
    }
  }

  lemma RefusedIs(embed: Embedder, n: nat, items: seq<Prepared>)
    requires |items| == 1 && Bisect(items, embed, n).failed != []
    ensures Refused(embed, n, items)
  {
    hide Inputs;
  }

  /** Whatever the backend answers, a document that comes back has the vectors of its own texts. */
  lemma {:induction false} VectorsAreOwn(items: seq<Prepared>, embed: Embedder, n: nat)
    ensures AllOwnVectors(embed, Bisect(items, embed, n).pairs)
    decreases |items|
  {
    hide Inputs, Distribute, OwnVectors;
    if items != [] {
      var outcome := embed(n, Inputs(items));
      if Inputs(items) == [] {
        NoTexts(items, embed);
      } else if outcome.Vectors? && |outcome.vectors| == |Inputs(items)| {
        forall p | p in Distribute(items, outcome.vectors) ensures OwnVectors(embed, p) {
          var i :| 0 <= i < |items| && Distribute(items, outcome.vectors)[i] == p;
          DistributedAre(items, embed, n, i);
        }
      } else if !outcome.BackendFailed? && |items| > 1 {
        var middle := |items| / 2;
        VectorsAreOwn(items[..middle], embed, n + 1);
        VectorsAreOwn(items[middle..], embed, Bisect(items[..middle], embed, n + 1).calls);
      }
    }
  }

  lemma NoTexts(items: seq<Prepared>, embed: Embedder)
    requires Inputs(items) == []
    ensures AllOwnVectors(embed, Distribute(items, []))
  {
    hide Inputs, Distribute;
    forall p | p in Distribute(items, []) ensures OwnVectors(embed, p) {
      var i :| 0 <= i < |items| && Distribute(items, [])[i] == p;
      AtItsPlace(items, [], i);
    }
  }

  /** Call `m` for some stretch of the documents fails as a backend. */
  ghost predicate FailsWithin(embed: Embedder, m: nat, items: seq<Prepared>) {
    exists a, b :: 0 <= a < b <= |items| && embed(m, Inputs(items[a..b])).BackendFailed?
  }

  lemma FailsInPart(embed: Embedder, m: nat, items: seq<Prepared>, lo: nat, hi: nat)
    requires lo <= hi <= |items| && FailsWithin(embed, m, items[lo..hi])
    ensures FailsWithin(embed, m, items)
  {
    var a, b :| 0 <= a < b <= hi - lo && embed(m, Inputs(items[lo..hi][a..b])).BackendFailed?;
    SliceOfSlice(items, lo, hi, a, b);
  }

  /** When a group fails to embed, its last call was the one that failed as a backend. */
  lemma {:induction false} FailureIsLast(items: seq<Prepared>, embed: Embedder, n: nat)
    requires !Bisect(items, embed, n).ok
    ensures Bisect(items, embed, n).calls > n && FailsWithin(embed, Bisect(items, embed, n).calls - 1, items)
    decreases |items|
  {
    hide Inputs, Distribute, FailsWithin;
    if embed(n, Inputs(items)).BackendFailed? {
      FailsHere(embed, n, items);
    } else {
      var middle := |items| / 2;
      var left := Bisect(items[..middle], embed, n + 1);
      CallsLinear(items[..middle], embed, n + 1);
      assert items[0..middle] == items[..middle] && items[middle..|items|] == items[middle..];
      if left.ok {
        FailureIsLast(items[middle..], embed, left.calls);
        FailsInPart(embed, Bisect(items, embed, n).calls - 1, items, middle, |items|);
      } else {
        FailureIsLast(items[..middle], embed, n + 1);
        FailsInPart(embed, left.calls - 1, items, 0, middle);
      }
    }
  }

  lemma FailsHere(embed: Embedder, n: nat, items: seq<Prepared>)
    requires items != [] && embed(n, Inputs(items)).BackendFailed?
    ensures FailsWithin(embed, n, items)
  {
    assert items[0..|items|] == items;
  }

  /** A backend that always returns one vector for each text. */
  ghost predicate Reliable(embed: Embedder) {
    forall n, texts :: embed(n, texts).Vectors? && |embed(n, texts).vectors| == |texts|
  }

  lemma ReliableEmbedsAll(items: seq<Prepared>, embed: Embedder, n: nat)
    requires Reliable(embed)
    ensures Bisect(items, embed, n).ok && Bisect(items, embed, n).failed == []
  {
    hide Inputs, Distribute;
    assert embed(n, Inputs(items)).Vectors? && |embed(n, Inputs(items)).vectors| == |Inputs(items)|;
  }

  lemma OneDropped<T>(x: T)
    ensures Interleaves([x], [], [x])
  {
  }

  /** Whatever the backend answers, embedding `m` documents takes at most `2 * m - 1` calls. */
  lemma {:induction false} CallsLinear(items: seq<Prepared>, embed: Embedder, n: nat)
    ensures n <= Bisect(items, embed, n).calls
    ensures items != [] ==> Bisect(items, embed, n).calls <= n + 2 * |items| - 1
    decreases |items|
  {
    hide Inputs, Distribute;
    if |items| > 1 {
      var middle := |items| / 2;
      CallsLinear(items[..middle], embed, n + 1);
      CallsLinear(items[middle..], embed, Bisect(items[..middle], embed, n + 1).calls);
    }
  }

  /** A backend that embeds each text on its own and rejects a batch exactly when it holds a bad text. */
  ghost predicate Pointwise(embed: Embedder, good: string -> bool, vec: string -> Vector) {
    forall n: nat, xs: seq<string> :: embed(n, xs) == if AllGood(xs, good) then Vectors(Mapped(xs, vec)) else Raised
  }

  predicate AllGood(xs: seq<string>, good: string -> bool) {
    forall k :: 0 <= k < |xs| ==> good(xs[k])
  }

  function Mapped(xs: seq<string>, vec: string -> Vector): (r: seq<Vector>)
    ensures |r| == |xs|
  {
    seq(|xs|, k requires 0 <= k < |xs| => vec(xs[k]))
  }

  /** The good documents in order, each with the vectors of its own texts. */
  function GoodPairs(items: seq<Prepared>, good: string -> bool, vec: string -> Vector): seq<Pair> {
    if items == [] then [] else GoodPart(items[0], good, vec) + GoodPairs(items[1..], good, vec)
  }

  function GoodPart(item: Prepared, good: string -> bool, vec: string -> Vector): seq<Pair> {
    if AllGood(ItemInputs(item), good) then [(item, Mapped(ItemInputs(item), vec))] else []
  }

  function BadPart(item: Prepared, good: string -> bool): seq<Prepared> {
    if AllGood(ItemInputs(item), good) then [] else [item]
  }

  function BadItems(items: seq<Prepared>, good: string -> bool): seq<Prepared> {
    if items == [] then [] else BadPart(items[0], good) + BadItems(items[1..], good)
  }

  lemma {:induction false} GoodConcat(a: seq<Prepared>, b: seq<Prepared>, good: string -> bool, vec: string -> Vector)
    ensures GoodPairs(a + b, good, vec) == GoodPairs(a, good, vec) + GoodPairs(b, good, vec)
    ensures BadItems(a + b, good) == BadItems(a, good) + BadItems(b, good)
    decreases |a|
  {
    hide GoodPart, BadPart;
    if a == [] {
      assert a + b == b;
    } else {
      assert (a + b)[1..] == a[1..] + b;
      GoodConcat(a[1..], b, good, vec);
    }
  }

  lemma {:induction false} GoodBatch(items: seq<Prepared>, good: string -> bool, vec: string -> Vector)
    ensures AllGood(Inputs(items), good) <==> BadItems(items, good) == []
    ensures AllGood(Inputs(items), good) ==>
              Distribute(items, Mapped(Inputs(items), vec)) == GoodPairs(items, good, vec)
    decreases |items|
  {
    hide EmbeddingInput;
    if items != [] {
      var first, rest := ItemInputs(items[0]), Inputs(items[1..]);
      GoodBatch(items[1..], good, vec);
      assert Inputs(items) == first + rest;
      assert AllGood(Inputs(items), good) <==> AllGood(first, good) && AllGood(rest, good) by {
        assert forall k :: 0 <= k < |rest| ==> rest[k] == (first + rest)[|first| + k];
        assert forall k :: 0 <= k < |first| ==> first[k] == (first + rest)[k];
      }
      assert Mapped(first + rest, vec)[..|first|] == Mapped(first, vec);
      assert Mapped(first + rest, vec)[|first|..] == Mapped(rest, vec);
    }
  }

  /** A document one of whose texts the backend rejects. */
  ghost predicate Rejected(item: Prepared, good: string -> bool) {
    exists k :: 0 <= k < |item.chunks| && !good(EmbeddingInput(item.chunks[k], item))
  }

  /** The bad documents are those with a rejected text, the good ones come with the vectors of their own texts. */
  lemma {:induction false} GoodAndBad(items: seq<Prepared>, good: string -> bool, vec: string -> Vector)
    ensures forall item :: item in BadItems(items, good) <==> item in items && Rejected(item, good)
    ensures forall p :: p in GoodPairs(items, good, vec) <==>
              && p.0 in items && !Rejected(p.0, good) && |p.1| == |p.0.chunks|
              && forall k :: 0 <= k < |p.1| ==> p.1[k] == vec(EmbeddingInput(p.0.chunks[k], p.0))
    decreases |items|
  {
    hide EmbeddingInput;
    if items != [] {
      GoodAndBad(items[1..], good, vec);
      var item := items[0];
      assert items == [item] + items[1..];
      assert AllGood(ItemInputs(item), good) <==> !Rejected(item, good) by {
        assert forall k :: 0 <= k < |item.chunks| ==> ItemInputs(item)[k] == EmbeddingInput(item.chunks[k], item);
      }
      hide AllGood, Rejected;
      forall p: Pair | p.0 == item && !Rejected(item, good) && |p.1| == |item.chunks|
                       && forall k :: 0 <= k < |p.1| ==> p.1[k] == vec(EmbeddingInput(item.chunks[k], item))
        ensures p == (item, Mapped(ItemInputs(item), vec))
      {
        assert p.1 == Mapped(ItemInputs(item), vec);
      }
    }
  }

  function CeilLog2(n: nat): nat {
    if n <= 1 then 0 else 1 + CeilLog2((n + 1) / 2)
  }

  lemma {:induction false} CeilLog2Monotone(m: nat, n: nat)
    requires m <= n
    ensures CeilLog2(m) <= CeilLog2(n)
    decreases n
  {
    if m > 1 { CeilLog2Monotone((m + 1) / 2, (n + 1) / 2); }
  }

  /** `CeilLog2(n)` is the least power of two that reaches `n`. */
  lemma {:induction false} CeilLog2Is(n: nat)
    requires n >= 1
    ensures n <= Power2(CeilLog2(n)) && (CeilLog2(n) > 0 ==> Power2(CeilLog2(n) - 1) < n)
  {
    if n > 1 { CeilLog2Is((n + 1) / 2); }
  }

  function Power2(e: nat): nat {
    if e == 0 then 1 else 2 * Power2(e - 1)
  }

  /** The calls that `k` bad documents among `m` may cost. */
  function IsolationCost(k: nat, m: nat): (r: nat)
    ensures r >= 1
  {
    1 + 2 * (k * CeilLog2(m))
  }

  /**
   * Against such a backend bisection isolates exactly the bad documents: each is recorded as failed once,
   * the others come back with their own vectors, and `k` bad ones among `m` cost `1 + 2 * k * ceil(log2 m)` calls at most.
   */
  lemma {:induction false} BadIsolated(items: seq<Prepared>, embed: Embedder, n: nat, good: string -> bool, vec: string -> Vector)
    requires Pointwise(embed, good, vec)
    ensures var e, bad := Bisect(items, embed, n), BadItems(items, good);
            && e.ok && e.pairs == GoodPairs(items, good, vec) && e.failed == bad
            && e.calls <= n + IsolationCost(|bad|, |items|)
    decreases |items|
  {
    hide Bisect, BadItems, GoodPairs, IsolationCost;
    if |items| > 1 && BadItems(items, good) != [] {
      var middle := |items| / 2;
      var left, right := items[..middle], items[middle..];
      RejectedSplits(items, embed, n, good, vec);
      assert items == left + right;
      GoodConcat(left, right, good, vec);
      BadIsolated(left, embed, n + 1, good, vec);
      BadIsolated(right, embed, Bisect(left, embed, n + 1).calls, good, vec);
      HalvesCost(|BadItems(left, good)|, |BadItems(right, good)|, |items|);
    } else {
      NotSplit(items, embed, n, good, vec);
    }
  }

  lemma RejectedSplits(items: seq<Prepared>, embed: Embedder, n: nat, good: string -> bool, vec: string -> Vector)
    requires Pointwise(embed, good, vec) && |items| > 1 && BadItems(items, good) != []
    ensures var middle := |items| / 2;
            var left := Bisect(items[..middle], embed, n + 1);
            Bisect(items, embed, n) == Join(left, Bisect(items[middle..], embed, left.calls))
  {
    hide Distribute, GoodPairs, BadItems;
    GoodBatch(items, good, vec);
  }

  lemma NotSplit(items: seq<Prepared>, embed: Embedder, n: nat, good: string -> bool, vec: string -> Vector)
    requires Pointwise(embed, good, vec) && (|items| <= 1 || BadItems(items, good) == [])
    ensures var e := Bisect(items, embed, n);
            e.ok && e.pairs == GoodPairs(items, good, vec) && e.failed == BadItems(items, good) && e.calls <= n + 1
  {
    hide Distribute, AllGood, Mapped;
    GoodBatch(items, good, vec);
    if items != [] && Inputs(items) == [] {
      NoInputs(items, good, vec);
    } else if BadItems(items, good) != [] {
      OneBad(items, good, vec);
    }
  }

  lemma OneBad(items: seq<Prepared>, good: string -> bool, vec: string -> Vector)
    requires |items| == 1 && BadItems(items, good) != []
    ensures BadItems(items, good) == [items[0]] && GoodPairs(items, good, vec) == []
  {
    assert items[1..] == [];
  }

  lemma NoInputs(items: seq<Prepared>, good: string -> bool, vec: string -> Vector)
    requires Inputs(items) == []
    ensures Distribute(items, []) == GoodPairs(items, good, vec) && BadItems(items, good) == []
  {
    GoodBatch(items, good, vec);
    assert Mapped(Inputs(items), vec) == [];
  }

  lemma Scale(k: nat, a: nat, b: nat)
    requires a <= b
    ensures k * a <= k * b
  {
  }

  lemma Expand(k: nat, k': nat, level: nat)
    ensures (k + k') * (level + 1) == k * level + k' * level + k + k'
  {
  }

  lemma HalvesCost(k: nat, k': nat, m: nat)
    requires m > 1 && k + k' >= 1
    ensures 1 + IsolationCost(k, m / 2) + IsolationCost(k', m - m / 2) <= IsolationCost(k + k', m)
  {
    var level := CeilLog2(m) - 1;
    assert (m + 1) / 2 == m - m / 2;
    CeilLog2Monotone(m / 2, m - m / 2);
    Scale(k, CeilLog2(m / 2), level);
    Expand(k, k', level);
  }
}
