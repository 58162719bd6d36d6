/**
 * Hybrid search: reciprocal rank fusion of two ranked lists, the ranking of the fused items, the filter, the
 * final order and the document cap.
 */
module Hybrid {
  import opened Ranking
  import opened Wrappers

  import Sorting

  // ----- Fusion

  /** What fusion accumulates for one chunk. */
  datatype Item = Item(chunk: nat, lexicalRank: Option<nat>, vectorRank: Option<nat>, score: real)

  /** The score a list gives a chunk: `1 / (k + rank)` for every place it has there, ranks from 1. */
  function ScoreIn(list: seq<nat>, chunk: nat, k: nat): real {
    if list == [] then 0.0 else
      var n := |list|;
      ScoreIn(list[..n - 1], chunk, k) + if list[n - 1] == chunk then 1.0 / (k + n) as real else 0.0
  }

  /** The last place of a chunk in a list. */
  function RankIn(list: seq<nat>, chunk: nat): (r: Option<nat>)
    ensures r.Some? <==> chunk in list
    ensures r.Some? ==> 1 <= r.value <= |list| && list[r.value - 1] == chunk
    ensures r.Some? ==> forall i :: r.value <= i < |list| ==> list[i] != chunk
  {
    if list == [] then None else
      var n := |list|;
      if list[n - 1] == chunk then Some(n) else
        assert chunk in list ==> chunk in list[..n - 1];
        RankIn(list[..n - 1], chunk)
  }

  /** What fusion makes of a chunk: its ranks and the sum of its scores. */
  function FusedItem(lexical: seq<nat>, vector: seq<nat>, k: nat, c: nat): Item {
    Item(c, RankIn(lexical, c), RankIn(vector, c), ScoreIn(lexical, c, k) + ScoreIn(vector, c, k))
  }

  /** The fused items after both lists, one per chunk. */
  ghost predicate Fused(items: map<nat, Item>, lexical: seq<nat>, vector: seq<nat>, k: nat) {
    && (forall c :: c in items <==> c in lexical || c in vector)
    && forall c :: c in items ==> items[c] == FusedItem(lexical, vector, k, c)
  }

  /** One row of a list enters the table. */
  function Enter(items: map<nat, Item>, chunk: nat, lexical: bool, rank: nat, k: nat): map<nat, Item>
    requires rank >= 1
  {
    var item := if chunk in items then items[chunk] else Item(chunk, None, None, 0.0);
    var ranked := if lexical then item.(lexicalRank := Some(rank)) else item.(vectorRank := Some(rank));
    items[chunk := ranked.(score := item.score + 1.0 / (k + rank) as real)]
  }

  lemma ScoreStep(list: seq<nat>, i: nat, chunk: nat, k: nat)
    requires i < |list|
    ensures ScoreIn(list[..i + 1], chunk, k) ==
            ScoreIn(list[..i], chunk, k) + if list[i] == chunk then 1.0 / (k + i + 1) as real else 0.0
    ensures RankIn(list[..i + 1], chunk) == if list[i] == chunk then Some(i + 1) else RankIn(list[..i], chunk)
  {
    assert list[..i + 1][..i] == list[..i];
  }

  lemma {:induction false} AbsentScore(list: seq<nat>, chunk: nat, k: nat)
    requires chunk !in list
    ensures ScoreIn(list, chunk, k) == 0.0
  {
    if list != [] {
      AbsentScore(list[..|list| - 1], chunk, k);
    }
  }

  /** A chunk that a list has once scores the reciprocal of the constant plus its rank there. */
  lemma {:induction false} ScoreOnce(list: seq<nat>, i: nat, k: nat)
    requires i < |list| && forall j :: 0 <= j < |list| && j != i ==> list[j] != list[i]
    ensures RankIn(list, list[i]) == Some(i + 1) && ScoreIn(list, list[i], k) == 1.0 / (k + i + 1) as real
  {
    var n := |list| - 1;
    assert RankIn(list, list[i]).Some? by { assert list[i] in list; }
    if i < n { ScoreOnce(list[..n], i, k); } else { AbsentScore(list[..n], list[i], k); }
  }

  /** What one more place of chunk `c` means for the item of each chunk. */
  lemma LexicalStep(lexical: seq<nat>, i: nat, k: nat, x: nat)
    requires i < |lexical|
    ensures var was, now := FusedItem(lexical[..i], [], k, x), FusedItem(lexical[..i + 1], [], k, x);
            now == if lexical[i] != x then was
                   else was.(lexicalRank := Some(i + 1), score := was.score + 1.0 / (k + i + 1) as real)
    ensures x !in lexical[..i] ==> FusedItem(lexical[..i], [], k, x) == Item(x, None, None, 0.0)
  {
    ScoreStep(lexical, i, x, k);
    if x !in lexical[..i] { AbsentScore(lexical[..i], x, k); }
  }

  lemma VectorStep(lexical: seq<nat>, vector: seq<nat>, i: nat, k: nat, x: nat)
    requires i < |vector|
    ensures var was, now := FusedItem(lexical, vector[..i], k, x), FusedItem(lexical, vector[..i + 1], k, x);
            now == if vector[i] != x then was
                   else was.(vectorRank := Some(i + 1), score := was.score + 1.0 / (k + i + 1) as real)
    ensures x !in lexical && x !in vector[..i] ==> FusedItem(lexical, vector[..i], k, x) == Item(x, None, None, 0.0)
  {
    ScoreStep(vector, i, x, k);
    if x !in lexical && x !in vector[..i] {
      AbsentScore(lexical, x, k);
      AbsentScore(vector[..i], x, k);
    }
  }

  lemma EnterLexical(items: map<nat, Item>, lexical: seq<nat>, i: nat, k: nat)
    requires i < |lexical| && Fused(items, lexical[..i], [], k)
    ensures Fused(Enter(items, lexical[i], true, i + 1, k), lexical[..i + 1], [], k)
  {
    hide FusedItem;
    assert lexical[..i + 1] == lexical[..i] + [lexical[i]];
    var more := Enter(items, lexical[i], true, i + 1, k);
    forall x | x in more ensures more[x] == FusedItem(lexical[..i + 1], [], k, x) {
      LexicalStep(lexical, i, k, x);
    }
  }

  lemma EnterVector(items: map<nat, Item>, lexical: seq<nat>, vector: seq<nat>, i: nat, k: nat)
    requires i < |vector| && Fused(items, lexical, vector[..i], k)
    ensures Fused(Enter(items, vector[i], false, i + 1, k), lexical, vector[..i + 1], k)
  {
    hide FusedItem;
    assert vector[..i + 1] == vector[..i] + [vector[i]];
    var more := Enter(items, vector[i], false, i + 1, k);
    forall x | x in more ensures more[x] == FusedItem(lexical, vector[..i + 1], k, x) {
      VectorStep(lexical, vector, i, k, x);
    }
  }

  method Fuse(lexical: seq<nat>, vector: seq<nat>, k: nat) returns (items: map<nat, Item>)
    ensures Fused(items, lexical, vector, k)
  {
    items := map[];
    for i := 0 to |lexical|
      invariant Fused(items, lexical[..i], [], k)
    {
      EnterLexical(items, lexical, i, k);
      items := Enter(items, lexical[i], true, i + 1, k);
    }
    assert lexical[..|lexical|] == lexical && vector[..0] == [];
    for i := 0 to |vector|
      invariant Fused(items, lexical, vector[..i], k)
    {
      EnterVector(items, lexical, vector, i, k);
      items := Enter(items, vector[i], false, i + 1, k);
    }
    assert vector[..|vector|] == vector;
  }

  // ----- The document cap

  /** A ranked row and the document it belongs to. */
  datatype Row = Row(chunk: nat, document: nat)

  function Of(rows: seq<Row>, document: nat): nat {
    if rows == [] then 0 else Of(rows[..|rows| - 1], document) + if rows[|rows| - 1].document == document then 1 else 0
  }

  /** The rows that are among the first `maximum` of their document, in order. */
  function Capped(rows: seq<Row>, maximum: int): seq<Row> {
    if rows == [] then [] else
      var n := |rows| - 1;
      Capped(rows[..n], maximum) + if Of(rows[..n], rows[n].document) < maximum then [rows[n]] else []
  }

  /** The cap keeps as many rows of a document as it has, up to the maximum. */
  lemma {:induction false} CappedCounts(rows: seq<Row>, maximum: int, document: nat)
    ensures var kept := Of(Capped(rows, maximum), document);
            kept == if Of(rows, document) <= maximum then Of(rows, document) else if maximum < 0 then 0 else maximum
  {
    if rows != [] {
      var n := |rows| - 1;
      CappedCounts(rows[..n], maximum, document);
      var front := Capped(rows[..n], maximum);
      if Of(rows[..n], rows[n].document) < maximum {
        assert Capped(rows, maximum)[..|front|] == front;
      } else {
        CappedCounts(rows[..n], maximum, rows[n].document);
        assert Capped(rows, maximum) == front;
      }
    }
  }

  lemma {:induction false} CappedPrefix(rows: seq<Row>, maximum: int, i: nat)
    requires i <= |rows|
    ensures Capped(rows[..i], maximum) <= Capped(rows, maximum)
    decreases |rows| - i
  {
    if i < |rows| {
      CappedPrefix(rows, maximum, i + 1);
      assert rows[..i + 1][..i] == rows[..i];
    } else {
      assert rows[..i] == rows;
    }
  }

  /** `counts.get(document, 0)` */
  function CountOf(counts: map<nat, nat>, document: nat): nat {
    if document in counts then counts[document] else 0
  }

  ghost predicate Tracks(counts: map<nat, nat>, rows: seq<Row>) {
    forall d: nat :: CountOf(counts, d) == Of(rows, d)
  }

  lemma TrackedCount(counts: map<nat, nat>, rows: seq<Row>, document: nat)
    requires Tracks(counts, rows)
    ensures CountOf(counts, document) == Of(rows, document)
  {
  }

  lemma CountAppended(counts: map<nat, nat>, rows: seq<Row>, row: Row)
    requires Tracks(counts, rows)
    ensures Tracks(counts[row.document := CountOf(counts, row.document) + 1], rows + [row])
  {
    forall d: nat ensures Of(rows + [row], d) == Of(rows, d) + if row.document == d then 1 else 0 {
      OfAppend(rows, row, d);
    }
  }

  /** Whether a row is kept can be read off the rows kept before it. */
  lemma CapStep(rows: seq<Row>, maximum: int, i: nat)
    requires i < |rows|
    ensures var kept := Capped(rows[..i], maximum);
            Capped(rows[..i + 1], maximum) == if Of(kept, rows[i].document) < maximum then kept + [rows[i]] else kept
    ensures Capped(rows[..i + 1], maximum) <= Capped(rows, maximum)
  {
    CappedCounts(rows[..i], maximum, rows[i].document);
    CappedPrefix(rows, maximum, i + 1);
    assert rows[..i + 1][..i] == rows[..i];
  }

  lemma OfAppend(rows: seq<Row>, row: Row, document: nat)
    ensures Of(rows + [row], document) == Of(rows, document) + if row.document == document then 1 else 0
  {
    assert (rows + [row])[..|rows|] == rows;
  }

  /**
   * `diversify`: the first `limit` of the rows that are among the first `maximum` of their document, so a
   * row is skipped only when its document is full.  A limit below 1 still lets one row through.
   */
  method Diversify(rows: seq<Row>, limit: int, maximum: int) returns (result: seq<Row>)
    ensures var capped := Capped(rows, maximum);
            var most: nat := if limit < 1 then 1 else limit;
            result == if |capped| <= most then capped else capped[..most]
  {
    var counts: map<nat, nat> := map[];
    result := [];
    assert Capped(rows[..0], maximum) == [] && Tracks(counts, []);
    hide Of, Capped, Tracks;
    var i := 0;
    while i < |rows|
      invariant i <= |rows|
      invariant result == Capped(rows[..i], maximum)
      invariant result == [] || |result| < limit
      invariant Tracks(counts, result)
    {
      var row := rows[i];
      var count := CountOf(counts, row.document);
      TrackedCount(counts, result, row.document);
      CapStep(rows, maximum, i);
      if count < maximum {
        CountAppended(counts, result, row);
        result := result + [row];
        counts := counts[row.document := count + 1];
        if |result| >= limit {
          LimitReached(result, Capped(rows, maximum), limit);
          return;
        }
      }
      i := i + 1;
    }
    assert rows[..i] == rows;
  }

  lemma LimitReached(result: seq<Row>, capped: seq<Row>, limit: int)
    requires result <= capped && result != [] && |result| >= limit && (|result| == 1 || |result| - 1 < limit)
    ensures var most: nat := if limit < 1 then 1 else limit;
            result == if |capped| <= most then capped else capped[..most]
  {
  }

  /** What the cap promises: no document has more than its share of the result. */
  lemma {:induction false} ShareOfDocument(rows: seq<Row>, limit: int, maximum: int, result: seq<Row>, document: nat)
    requires maximum >= 0 && result <= Capped(rows, maximum)
    ensures Of(result, document) <= maximum
  {
    CappedCounts(rows, maximum, document);
    assert Capped(rows, maximum)[..|result|] == result;
    OfPrefix(Capped(rows, maximum), |result|, document);
  }

  lemma {:induction false} OfPrefix(rows: seq<Row>, i: nat, document: nat)
    requires i <= |rows|
    ensures Of(rows[..i], document) <= Of(rows, document)
    decreases |rows| - i
  {
    if i < |rows| {
      OfPrefix(rows, i + 1, document);
      assert rows[..i + 1][..i] == rows[..i];
    } else {
      assert rows[..i] == rows;
    }
  }

  // ----- The whole search

  /**
   * What the search reads off the texts: a chunk's document, its number of exact matches, whether it is
   * relevant enough, the final sort key (smaller ones first) given the reranker's score, and the reranker, which scores an item
   * among those it is shown.
   */
  datatype Judge = Judge(
    document: nat -> nat, exact: Item -> nat, accepted: Item -> bool, keys: (Item, Option<real>) -> seq<real>,
    reranker: Option<(set<nat>, Item) -> real>)

  datatype Hit = Hit(item: Item, rank: nat)

  /** The entries are those of the chunks in `chunks`, each with its key. */
  ghost predicate EntriesOf(s: seq<Entry>, chunks: set<nat>, key: nat -> seq<real>) {
    && DistinctIds(s)
    && (forall k :: 0 <= k < |s| ==> s[k].id in chunks && s[k].keys == key(s[k].id))
    && forall c :: c in chunks ==> Entry(key(c), c) in s
  }

  /** The table's entries in some order. */
  method Entries(chunks: set<nat>, key: nat -> seq<real>) returns (s: seq<Entry>)
    ensures EntriesOf(s, chunks, key)
  {
    s := [];
    var left := chunks;
    while left != {}
      invariant left <= chunks && EntriesOf(s, chunks - left, key)
      decreases |left|
    {
      var c :| c in left;
      ghost var before := s;
      s := s + [Entry(key(c), c)];
      assert forall d :: d in chunks - left ==> Entry(key(d), d) in before;
      left := left - {c};
    }
  }

  /** Ranking keeps the entries and puts them in the one order there is. */
  lemma RankedEntries(s: seq<Entry>, chunks: set<nat>, key: nat -> seq<real>, r: seq<Entry>)
    requires EntriesOf(s, chunks, key) && r == Rank(s)
    ensures EntriesOf(r, chunks, key) && Ranked(r)
  {
    RankInOrder(s);
    RankKeepsDistinct(s);
    Sorting.SameMembers(s, r);
    hide Rank, DistinctIds, Ranked;
    forall k | 0 <= k < |r| ensures r[k].id in chunks && r[k].keys == key(r[k].id) {
      assert r[k] in s;
    }
  }

  /** There is one list of the entries in order. */
  lemma OneList(s: seq<Entry>, t: seq<Entry>, chunks: set<nat>, key: nat -> seq<real>)
    requires EntriesOf(s, chunks, key) && EntriesOf(t, chunks, key) && Ranked(s) && Ranked(t)
    ensures s == t
  {
    hide Ranked, DistinctIds;
    forall x ensures x in s <==> x in t {
      if x in s { assert Entry(key(x.id), x.id) in t; }
      if x in t { assert Entry(key(x.id), x.id) in s; }
    }
    SameEntries(s, t);
    OneRanking(s, t);
  }

  function RowsOf(order: seq<Entry>, document: nat -> nat): (rows: seq<Row>)
    ensures |rows| == |order|
    ensures forall k :: 0 <= k < |order| ==> rows[k] == Row(order[k].id, document(order[k].id))
  {
    seq(|order|, k requires 0 <= k < |order| => Row(order[k].id, document(order[k].id)))
  }

  /** How many of the first `j` entries belong to a document. */
  ghost function BeforeIn(order: seq<Entry>, document: nat -> nat, j: nat, d: nat): nat
    requires j <= |order|
  {
    if j == 0 then 0 else BeforeIn(order, document, j - 1, d) + if document(order[j - 1].id) == d then 1 else 0
  }

  lemma {:induction false} RowsBefore(order: seq<Entry>, document: nat -> nat, j: nat, d: nat)
    requires j <= |order|
    ensures Of(RowsOf(order, document)[..j], d) == BeforeIn(order, document, j, d)
  {
    var rows := RowsOf(order, document);
    if j > 0 {
      RowsBefore(order, document, j - 1, d);
      assert rows[..j][..j - 1] == rows[..j - 1];
    }
  }

  /** `kept` are the places, in order, of the entries with fewer than `maximum` of their document before them. */
  ghost predicate KeptPlaces(order: seq<Entry>, document: nat -> nat, maximum: int, n: nat, kept: seq<int>)
    requires n <= |order|
  {
    && (forall i, j :: 0 <= i < j < |kept| ==> kept[i] < kept[j])
    && (forall i :: 0 <= i < |kept| ==> 0 <= kept[i] < n)
    && forall j: nat :: j < n ==> (j in kept <==> BeforeIn(order, document, j, document(order[j].id)) < maximum)
  }

  lemma OneMorePlace(order: seq<Entry>, document: nat -> nat, maximum: int, n: nat, kept: seq<int>)
    requires n < |order| && KeptPlaces(order, document, maximum, n, kept)
    ensures KeptPlaces(order, document, maximum, n + 1,
                       if BeforeIn(order, document, n, document(order[n].id)) < maximum then kept + [n] else kept)
  {
    hide BeforeIn;
  }

  lemma CappedNext(rows: seq<Row>, maximum: int, n: nat)
    requires 0 < n <= |rows|
    ensures Capped(rows[..n], maximum) == Capped(rows[..n - 1], maximum)
                                          + if Of(rows[..n - 1], rows[n - 1].document) < maximum then [rows[n - 1]] else []
  {
    assert rows[..n][..n - 1] == rows[..n - 1] && rows[..n][n - 1] == rows[n - 1];
  }

  ghost predicate RowsAt(capped: seq<Row>, order: seq<Entry>, kept: seq<int>) {
    |kept| == |capped| && forall i :: 0 <= i < |kept| ==> 0 <= kept[i] < |order| && capped[i].chunk == order[kept[i]].id
  }

  lemma OneMoreRow(capped: seq<Row>, order: seq<Entry>, kept: seq<int>, n: nat, row: Row)
    requires RowsAt(capped, order, kept) && n < |order| && row.chunk == order[n].id
    ensures RowsAt(capped + [row], order, kept + [n])
  {
  }

  lemma NothingKept(order: seq<Entry>, document: nat -> nat, maximum: int)
    ensures KeptPlaces(order, document, maximum, 0, []) && RowsAt(Capped(RowsOf(order, document)[..0], maximum), order, [])
  {
  }

  /** These are the entries the cap keeps. */
  lemma {:induction false} CappedAre(order: seq<Entry>, document: nat -> nat, maximum: int, n: nat) returns (kept: seq<int>)
    requires n <= |order|
    ensures KeptPlaces(order, document, maximum, n, kept)
    ensures RowsAt(Capped(RowsOf(order, document)[..n], maximum), order, kept)
    decreases n
  {
    hide KeptPlaces, Capped, BeforeIn, Of, RowsOf, RowsAt;
    if n == 0 {
      NothingKept(order, document, maximum);
      kept := [];
    } else {
      kept := CappedAre(order, document, maximum, n - 1);
      var rows, d := RowsOf(order, document), document(order[n - 1].id);
      OneMorePlace(order, document, maximum, n - 1, kept);
      RowsBefore(order, document, n - 1, d);
      CappedNext(rows, maximum, n);
      var front := Capped(rows[..n - 1], maximum);
      OneMoreRow(front, order, kept, n - 1, rows[n - 1]);
      if BeforeIn(order, document, n - 1, d) < maximum {
        kept := kept + [n - 1];
      } else {
        assert front + [] == front;
      }
    }
  }

  /** The candidates of the reranker: the first `depth` of the ranking by exact matches and fused score. */
  ghost predicate IsHead(head: set<nat>, lexical: seq<nat>, vector: seq<nat>, k: nat, judge: Judge, depth: nat) {
    exists order: seq<Entry> ::
      && EntriesOf(order, Union(lexical, vector), FusionKey(lexical, vector, k, judge)) && Ranked(order)
      && head == Chunks(order[..if depth < |order| then depth else |order|])
  }

  function Chunks(order: seq<Entry>): set<nat> {
    set x | x in order :: x.id
  }

  function Union(lexical: seq<nat>, vector: seq<nat>): set<nat> {
    (set c | c in lexical) + (set c | c in vector)
  }

  function FusionKey(lexical: seq<nat>, vector: seq<nat>, k: nat, judge: Judge): nat -> seq<real> {
    (c: nat) =>
      var item := FusedItem(lexical, vector, k, c);
      [0.0 - judge.exact(item) as real, 0.0 - item.score]
  }

  function FinalKey(lexical: seq<nat>, vector: seq<nat>, k: nat, judge: Judge, head: set<nat>): nat -> seq<real> {
    (c: nat) =>
      var item := FusedItem(lexical, vector, k, c);
      judge.keys(item, if judge.reranker.Some? && c in head then Some(judge.reranker.value(head, item)) else None)
  }

  /** The chunks of either list that are relevant enough. */
  function Accepted(lexical: seq<nat>, vector: seq<nat>, k: nat, judge: Judge): set<nat> {
    set c | c in Union(lexical, vector) && judge.accepted(FusedItem(lexical, vector, k, c))
  }

  /** Fusion, the ranking of the fused items, and its first `depth`. */
  method Shortlist(lexical: seq<nat>, vector: seq<nat>, k: nat, judge: Judge, depth: nat) returns (head: set<nat>)
    ensures IsHead(head, lexical, vector, k, judge, depth)
  {
    var items := Fuse(lexical, vector, k);
    assert items.Keys == Union(lexical, vector);
    hide Fused, FusionKey, FusedItem, Ranked, Rank, EntriesOf, Union, Chunks;
    var entries := Entries(items.Keys, FusionKey(lexical, vector, k, judge));
    var ranked := Rank(entries);
    RankedEntries(entries, items.Keys, FusionKey(lexical, vector, k, judge), ranked);
    head := Chunks(ranked[..if depth < |ranked| then depth else |ranked|]);
  }

  /**
   * `search`, from the two ranked lists on.  The result is the first `limit` rows, ranked from 1, of the accepted
   * chunks in the order of their final keys without those whose document is full.
   */
  method Search(lexical: seq<nat>, vector: seq<nat>, k: nat, judge: Judge, depth: nat, limit: int, maximum: int)
    returns (hits: seq<Hit>, head: set<nat>, order: seq<Entry>)
    ensures IsHead(head, lexical, vector, k, judge, depth)
    ensures Ranked(order)
    ensures EntriesOf(order, Accepted(lexical, vector, k, judge), FinalKey(lexical, vector, k, judge, head))
    ensures var capped := Capped(RowsOf(order, judge.document), maximum);
            var most: nat := if limit < 1 then 1 else limit;
            && |hits| == (if |capped| <= most then |capped| else most)
            && forall i :: 0 <= i < |hits| ==> hits[i] == Hit(FusedItem(lexical, vector, k, capped[i].chunk), i + 1)
  {
    head := Shortlist(lexical, vector, k, judge, depth);
    hide IsHead, FusedItem, Capped, Ranked, Rank, Accepted, FinalKey, EntriesOf;
    var relevant := Entries(Accepted(lexical, vector, k, judge), FinalKey(lexical, vector, k, judge, head));
    order := Rank(relevant);
    RankedEntries(relevant, Accepted(lexical, vector, k, judge), FinalKey(lexical, vector, k, judge, head), order);
    var rows := Diversify(RowsOf(order, judge.document), limit, maximum);
    hits := seq(|rows|, i requires 0 <= i < |rows| => Hit(FusedItem(lexical, vector, k, rows[i].chunk), i + 1));
  }

  /** What puts chunk `c` before chunk `d` in the shortlist: exact matches, then the fused score, then the id. */
  ghost predicate FusedBefore(lexical: seq<nat>, vector: seq<nat>, k: nat, judge: Judge, c: nat, d: nat) {
    var x, y := FusedItem(lexical, vector, k, c), FusedItem(lexical, vector, k, d);
    judge.exact(x) > judge.exact(y) || (judge.exact(x) == judge.exact(y) && (x.score > y.score || (x.score == y.score && c < d)))
  }

  /** The shortlist holds chunks of the two lists, up to `depth` of them, and what it leaves out comes after all it holds. */
  lemma ShortlistIs(head: set<nat>, lexical: seq<nat>, vector: seq<nat>, k: nat, judge: Judge, depth: nat)
    requires IsHead(head, lexical, vector, k, judge, depth)
    ensures forall c :: c in head ==> c in lexical || c in vector
    ensures |head| <= depth && (|head| < depth ==> forall c :: c in lexical || c in vector ==> c in head)
    ensures forall c, d :: c in head && (d in lexical || d in vector) && d !in head ==>
              FusedBefore(lexical, vector, k, judge, c, d)
  {
    var union, key := Union(lexical, vector), FusionKey(lexical, vector, k, judge);
    var order: seq<Entry> :| EntriesOf(order, union, key) && Ranked(order)
                             && head == Chunks(order[..if depth < |order| then depth else |order|]);
    var n := if depth < |order| then depth else |order|;
    assert forall c :: c in union <==> c in lexical || c in vector;
    hide FusedItem, Ranked, Union, FusionKey, FusedBefore, Chunks;
    ChunksCount(order[..n]);
    ChunksAre(order, n);
    forall c, d | c in head && d in union && d !in head ensures FusedBefore(lexical, vector, k, judge, c, d) {
      var i :| 0 <= i < n && order[i].id == c;
      assert Entry(key(d), d) in order;
      var j :| 0 <= j < |order| && order[j] == Entry(key(d), d);
      assert i < j;
      RankedPair(order, i, j);
      FusionPrecedes(lexical, vector, k, judge, order[i], order[j]);
    }
    if |head| < depth {
      forall c | c in union ensures c in head {
        assert Entry(key(c), c) in order;
      }
    }
  }

  lemma ChunksAre(order: seq<Entry>, n: nat)
    requires n <= |order|
    ensures forall c :: c in Chunks(order[..n]) <==> exists i :: 0 <= i < n && order[i].id == c
  {
    forall c | c in Chunks(order[..n]) ensures exists i :: 0 <= i < n && order[i].id == c {
      var i :| 0 <= i < n && order[..n][i].id == c;
    }
    forall i | 0 <= i < n ensures order[i].id in Chunks(order[..n]) {
      assert order[..n][i] in order[..n];
    }
  }

  lemma {:induction false} ChunksCount(order: seq<Entry>)
    requires DistinctIds(order)
    ensures |Chunks(order)| == |order|
  {
    if order != [] {
      var n := |order| - 1;
      ChunksCount(order[..n]);
      assert order == order[..n] + [order[n]];
      assert Chunks(order) == Chunks(order[..n]) + {order[n].id};
    }
  }

  lemma RankedPair(order: seq<Entry>, i: nat, j: nat)
    requires Ranked(order) && DistinctIds(order) && i < j < |order|
    ensures Precedes(order[i], order[j])
  {
    hide Precedes;
    AtMostIs(order[i], order[j]);
  }

  lemma FusionPrecedes(lexical: seq<nat>, vector: seq<nat>, k: nat, judge: Judge, a: Entry, b: Entry)
    requires a.keys == FusionKey(lexical, vector, k, judge)(a.id) && b.keys == FusionKey(lexical, vector, k, judge)(b.id)
    requires Precedes(a, b)
    ensures FusedBefore(lexical, vector, k, judge, a.id, b.id)
  {
    hide FusedItem;
    var x, y := FusedItem(lexical, vector, k, a.id), FusedItem(lexical, vector, k, b.id);
    assert a.keys == [0.0 - judge.exact(x) as real, 0.0 - x.score] && b.keys == [0.0 - judge.exact(y) as real, 0.0 - y.score];
    if n: nat :| SmallerAt(a.keys, b.keys, n) {
      assert n == 0 || n == 1;
      if n == 1 { assert a.keys[0] == a.keys[..1][0] == b.keys[..1][0] == b.keys[0]; }
    }
  }

  /** What the reranker says of a chunk, which it does only of chunks in the shortlist. */
  ghost function RerankedAs(judge: Judge, head: set<nat>, item: Item): Option<real> {
    if judge.reranker.Some? && item.chunk in head then Some(judge.reranker.value(head, item)) else None
  }

  /**
   * The final order holds the relevant chunks of the two lists, each once, by the key each has with its reranker score
   * and then by id.
   */
  lemma FinalOrderIs(lexical: seq<nat>, vector: seq<nat>, k: nat, judge: Judge, head: set<nat>, order: seq<Entry>)
    requires Ranked(order) && EntriesOf(order, Accepted(lexical, vector, k, judge), FinalKey(lexical, vector, k, judge, head))
    ensures DistinctIds(order)
    ensures forall c :: (exists i :: 0 <= i < |order| && order[i].id == c)
                        <==> (c in lexical || c in vector) && judge.accepted(FusedItem(lexical, vector, k, c))
    ensures forall i :: 0 <= i < |order| ==>
              var item := FusedItem(lexical, vector, k, order[i].id);
              order[i].keys == judge.keys(item, RerankedAs(judge, head, item))
    ensures forall i, j :: 0 <= i < j < |order| ==> Precedes(order[i], order[j])
  {
    var key := FinalKey(lexical, vector, k, judge, head);
    hide Ranked, Precedes;
    forall i, j | 0 <= i < j < |order| ensures Precedes(order[i], order[j]) { RankedPair(order, i, j); }
    forall c | (c in lexical || c in vector) && judge.accepted(FusedItem(lexical, vector, k, c))
      ensures exists i :: 0 <= i < |order| && order[i].id == c
    {
      assert c in Accepted(lexical, vector, k, judge);
      assert Entry(key(c), c) in order;
    }
  }

  /** Neither the shortlist nor the final order depends on the order in which fusion filled its table. */
  lemma SearchIsDetermined(lexical: seq<nat>, vector: seq<nat>, k: nat, judge: Judge, depth: nat,
                           head: set<nat>, order: seq<Entry>, head': set<nat>, order': seq<Entry>)
    requires IsHead(head, lexical, vector, k, judge, depth) && IsHead(head', lexical, vector, k, judge, depth)
    requires Ranked(order) && EntriesOf(order, Accepted(lexical, vector, k, judge), FinalKey(lexical, vector, k, judge, head))
    requires Ranked(order') && EntriesOf(order', Accepted(lexical, vector, k, judge), FinalKey(lexical, vector, k, judge, head'))
    ensures head == head' && order == order'
  {
    var union, key := Union(lexical, vector), FusionKey(lexical, vector, k, judge);
    hide Union, FusionKey, FinalKey, EntriesOf, Ranked, Accepted;
    var a: seq<Entry> :| EntriesOf(a, union, key) && Ranked(a) && head == Chunks(a[..if depth < |a| then depth else |a|]);
    var b: seq<Entry> :| EntriesOf(b, union, key) && Ranked(b) && head' == Chunks(b[..if depth < |b| then depth else |b|]);
    OneList(a, b, union, key);
    OneList(order, order', Accepted(lexical, vector, k, judge), FinalKey(lexical, vector, k, judge, head));
  }
}
