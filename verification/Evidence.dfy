/** Choosing seed passages, reading the chunks around them and ordering the blocks for packing. */
module Evidence {
  import opened Basics
  import opened Context
  import opened Wrappers

  import Sorting

  /** A retrieved chunk; a rank of 0 stands for none. */
  datatype Hit = Hit(document: nat, documentRank: nat, chunkNo: int, chunkId: nat, passageRank: nat, score: real)

  const UNRANKED := 1_000_000_000

  function RankOf(h: Hit): nat {
    if h.passageRank == 0 then UNRANKED else h.passageRank
  }

  /** The sort key: passage rank, then the higher score, then the chunk. */
  predicate Before(a: Hit, b: Hit) {
    || RankOf(a) < RankOf(b)
    || (RankOf(a) == RankOf(b) && (a.score > b.score || (a.score == b.score && a.chunkId < b.chunkId)))
  }

  predicate NotAfter(a: Hit, b: Hit) {
    !Before(b, a)
  }

  lemma NotAfterIsOrder()
    ensures Sorting.IsOrder(NotAfter)
  {
  }

  /** `sorted(hits, key=...)` */
  function Sort(hits: seq<Hit>): (r: seq<Hit>)
    ensures |r| == |hits| && forall x :: x in r <==> x in hits
  {
    Sorting.SameMembers(hits, Sorting.Sort(NotAfter, hits));
    Sorting.Sort(NotAfter, hits)
  }

  /** A hit without a passage rank comes after all with one; among equal ranks the higher score is first, then the lower id. */
  ghost predicate InKeyOrder(a: Hit, b: Hit) {
    var x := if a.passageRank == 0 then 1_000_000_000 else a.passageRank;
    var y := if b.passageRank == 0 then 1_000_000_000 else b.passageRank;
    x <= y && (x == y ==> a.score >= b.score && (a.score == b.score ==> a.chunkId <= b.chunkId))
  }

  ghost predicate AllInKeyOrder(hits: seq<Hit>) {
    forall i, j :: 0 <= i < j < |hits| ==> InKeyOrder(hits[i], hits[j])
  }

  lemma NotAfterIs(a: Hit, b: Hit)
    ensures NotAfter(a, b) <==> InKeyOrder(a, b)
  {
  }

  /** The hits are taken in the order of their keys. */
  lemma SortSorted(hits: seq<Hit>)
    ensures AllInKeyOrder(Sort(hits)) && multiset(Sort(hits)) == multiset(hits)
  {
    NotAfterIsOrder();
    Sorting.SortInOrder(NotAfter, hits);
    hide NotAfter, InKeyOrder;
    forall i, j | 0 <= i < j < |hits| ensures InKeyOrder(Sort(hits)[i], Sort(hits)[j]) {
      NotAfterIs(Sort(hits)[i], Sort(hits)[j]);
    }
  }

  // ----- Distinct seeds

  predicate Near(a: Hit, b: Hit) {
    Distance(a.chunkNo, b.chunkNo) <= 1
  }

  predicate NearAny(h: Hit, selected: seq<Hit>) {
    exists k :: 0 <= k < |selected| && Near(h, selected[k])
  }

  ghost predicate Apart(selected: seq<Hit>) {
    forall i, j :: 0 <= i < j < |selected| ==> !Near(selected[i], selected[j])
  }

  /** What an unlimited pass over the hits keeps: each one that is not next to one already kept. */
  function Greedy(hits: seq<Hit>): (r: seq<Hit>)
    ensures Apart(r)
    ensures forall h :: h in r ==> h in hits
  {
    if hits == [] then [] else
      var kept := Greedy(hits[..|hits| - 1]);
      var h := hits[|hits| - 1];
      if NearAny(h, kept) then kept else kept + [h]
  }

  /** Every hit has a kept one next to it that came no later. */
  lemma {:induction false} GreedyDominates(hits: seq<Hit>, k: nat)
    requires k < |hits|
    ensures NearAny(hits[k], Greedy(hits[..k + 1]))
    ensures Greedy(hits[..k + 1]) <= Greedy(hits)
    decreases |hits|
  {
    var front := hits[..|hits| - 1];
    if k == |hits| - 1 {
      assert hits[..k + 1] == hits;
      assert !NearAny(hits[k], Greedy(front)) ==> Greedy(hits)[|Greedy(hits)| - 1] == hits[k];
    } else {
      GreedyDominates(front, k);
      assert front[..k + 1] == hits[..k + 1];
    }
  }

  /** The greedy pass over the sorted hits, which the limit only cuts short. */
  ghost predicate IsSelection(hits: seq<Hit>, maximum: int, selected: seq<Hit>) {
    exists upto :: 0 <= upto <= |Sort(hits)| && selected == Greedy(Sort(hits)[..upto])
                   && (upto == |Sort(hits)| || |selected| == maximum)
  }

  /** The chunk is one that was chosen or next to one, which came no later. */
  ghost predicate Represented(selected: seq<Hit>, h: Hit) {
    exists k :: 0 <= k < |selected| && -1 <= selected[k].chunkNo - h.chunkNo <= 1 && InKeyOrder(selected[k], h)
  }

  lemma {:induction false} GreedyInOrder(hits: seq<Hit>)
    requires AllInKeyOrder(hits)
    ensures AllInKeyOrder(Greedy(hits))
  {
    hide InKeyOrder;
    if hits != [] {
      var n := |hits| - 1;
      GreedyInOrder(hits[..n]);
      forall h | h in Greedy(hits[..n]) ensures InKeyOrder(h, hits[n]) {
        var i :| 0 <= i < n && hits[..n][i] == h;
      }
    }
  }

  lemma GreedyRepresents(hits: seq<Hit>, k: nat)
    requires AllInKeyOrder(hits) && k < |hits|
    ensures Represented(Greedy(hits), hits[k])
  {
    GreedyDominates(hits, k);
    FrontRepresents(hits, k, Greedy(hits[..k + 1]), Greedy(hits));
  }

  lemma FrontRepresents(hits: seq<Hit>, k: nat, front: seq<Hit>, selected: seq<Hit>)
    requires AllInKeyOrder(hits) && k < |hits| && NearAny(hits[k], front) && front <= selected
    requires forall h :: h in front ==> h in hits[..k + 1]
    ensures Represented(selected, hits[k])
  {
    var j :| 0 <= j < |front| && Near(hits[k], front[j]);
    assert selected[j] == front[j] && front[j] in front;
    var i :| 0 <= i <= k && hits[..k + 1][i] == front[j];
    assert i < k ==> InKeyOrder(hits[i], hits[k]);
  }

  /**
   * The seeds are hits in the order of their keys, no two next to each other.  A hit is left out only for a chosen one
   * next to it that came no later, or because the seeds chosen before it are as many as asked for.
   */
  lemma SelectionIs(hits: seq<Hit>, maximum: int, selected: seq<Hit>)
    requires IsSelection(hits, maximum, selected)
    ensures AllInKeyOrder(selected) && forall h :: h in selected ==> h in hits
    ensures forall i, j :: 0 <= i < j < |selected| ==>
              selected[i].chunkNo - selected[j].chunkNo > 1 || selected[j].chunkNo - selected[i].chunkNo > 1
    ensures forall h :: h in hits ==>
              Represented(selected, h) || (|selected| == maximum && forall s :: s in selected ==> InKeyOrder(s, h))
  {
    SortSorted(hits);
    var sorted := Sort(hits);
    var upto :| 0 <= upto <= |sorted| && selected == Greedy(sorted[..upto]) && (upto == |sorted| || |selected| == maximum);
    GreedyInOrder(sorted[..upto]);
    forall h | h in hits
      ensures Represented(selected, h) || (|selected| == maximum && forall s :: s in selected ==> InKeyOrder(s, h))
    {
      assert h in sorted;
      var k :| 0 <= k < |sorted| && sorted[k] == h;
      if k < upto {
        GreedyRepresents(sorted[..upto], k);
      } else {
        forall s | s in selected ensures InKeyOrder(s, h) {
          var i :| 0 <= i < upto && sorted[..upto][i] == s;
        }
      }
    }
  }

  /** The spatially distinct seeds of one document. */
  method SelectDistinctSeeds(hits: seq<Hit>, maximum: int) returns (selected: seq<Hit>)
    ensures IsSelection(hits, maximum, selected)
    ensures Apart(selected) && forall h :: h in selected ==> h in hits
    ensures maximum >= 1 ==> |selected| <= maximum
  {
    selected := [];
    var sorted := Sort(hits);
    var i := 0;
    while i < |sorted|
      invariant i <= |sorted|
      invariant selected == Greedy(sorted[..i])
      invariant maximum >= 1 ==> |selected| < maximum
      invariant forall h :: h in selected ==> h in hits
    {
      var hit := sorted[i];
      assert sorted[..i + 1][..i] == sorted[..i];
      if !NearAny(hit, selected) {
        selected := selected + [hit];
        if |selected| == maximum {
          assert selected == Greedy(sorted[..i + 1]);
          return;
        }
      }
      i := i + 1;
    }
    assert sorted[..i] == sorted;
  }

  // ----- Neighbours

  lemma FirstNo(rows: seq<Row>, rest: seq<Row>, lo: int)
    requires |rows| == |rest| + 1 && rows[0].no == lo && rows[1..] == rest
    requires Ascending(Nos(rest)) && forall k :: 0 <= k < |rest| ==> lo < rest[k].no
    ensures Nos(rows) == [lo] + Nos(rest) && Ascending(Nos(rows))
    ensures lo in Nos(rows) && forall no :: no in Nos(rest) ==> no in Nos(rows)
  {
    assert forall k :: 0 < k < |rows| ==> rows[k] == rest[k - 1];
    assert Nos(rows)[0] == lo;
  }

  /** The rows of the document with numbers from `lo` to `hi` that the catalog has, in order. */
  function Window(store: map<(nat, int), Row>, document: nat, lo: int, hi: int): (rows: seq<Row>)
    ensures forall k :: 0 <= k < |rows| ==> lo <= rows[k].no <= hi && (document, rows[k].no) in store
    ensures Ascending(Nos(rows))
    ensures forall no :: lo <= no <= hi && (document, no) in store ==> no in Nos(rows)
    ensures forall k :: 0 <= k < |rows| ==>
              var row := store[(document, rows[k].no)]; rows[k].id == row.id && rows[k].text == row.text
    decreases hi - lo
  {
    if lo > hi then [] else
      var rest := Window(store, document, lo + 1, hi);
      if (document, lo) in store then
        var rows := [store[(document, lo)].(no := lo)] + rest;
        FirstNo(rows, rest, lo);
        rows
      else rest
  }

  /** The block around a seed, unless the catalog no longer has the seed's chunk. */
  function BlockAround(store: map<(nat, int), Row>, seed: Hit, radius: nat): Option<Block> {
    var rows := Window(store, seed.document, Max(0, seed.chunkNo - radius), seed.chunkNo + radius);
    if seed.chunkNo in Nos(rows) then Some(MakeBlock(seed.document, seed.chunkNo, rows)) else None
  }

  lemma AroundWellFormed(store: map<(nat, int), Row>, seed: Hit, radius: nat)
    requires BlockAround(store, seed, radius).Some?
    ensures WellFormed(BlockAround(store, seed, radius).value)
  {
    var rows := Window(store, seed.document, Max(0, seed.chunkNo - radius), seed.chunkNo + radius);
    MadeWellFormed(seed.document, seed.chunkNo, rows);
  }

  /** The block of a seed: the chunks of its document up to `radius` places from it that the catalog has, in order. */
  ghost predicate IsBlockOf(store: map<(nat, int), Row>, seed: Hit, radius: nat, b: Block, texts: seq<string>) {
    && b.document == seed.document && b.seedNo == seed.chunkNo
    && Ascending(b.chunkNos) && |texts| == |b.chunkIds| == |b.chunkNos| && b.text == Joining.Join(texts)
    && (forall no :: no in b.chunkNos <==>
          0 <= no && seed.chunkNo - radius <= no <= seed.chunkNo + radius && (seed.document, no) in store)
    && forall k :: 0 <= k < |texts| ==>
         var row := store[(seed.document, b.chunkNos[k])]; b.chunkIds[k] == row.id && texts[k] == row.text
  }

  ghost predicate BlockOf(store: map<(nat, int), Row>, seed: Hit, radius: nat, b: Block) {
    exists texts :: IsBlockOf(store, seed, radius, b, texts)
  }

  lemma MadeBlockIs(store: map<(nat, int), Row>, seed: Hit, radius: nat, rows: seq<Row>)
    requires Ascending(Nos(rows))
    requires forall k :: 0 <= k < |rows| ==> (seed.document, rows[k].no) in store
    requires forall k :: 0 <= k < |rows| ==>
               var row := store[(seed.document, rows[k].no)]; rows[k].id == row.id && rows[k].text == row.text
    requires forall no :: no in Nos(rows) <==>
               0 <= no && seed.chunkNo - radius <= no <= seed.chunkNo + radius && (seed.document, no) in store
    ensures BlockOf(store, seed, radius, MakeBlock(seed.document, seed.chunkNo, rows))
  {
    hide Joining.Join, Ascending;
    var b, texts := MakeBlock(seed.document, seed.chunkNo, rows), Texts(rows);
    assert IsBlockOf(store, seed, radius, b, texts);
  }

  /** There is a block exactly when the catalog still has the seed's chunk. */
  lemma BlockIs(store: map<(nat, int), Row>, seed: Hit, radius: nat)
    ensures BlockAround(store, seed, radius).Some? <==> 0 <= seed.chunkNo && (seed.document, seed.chunkNo) in store
    ensures BlockAround(store, seed, radius).Some? ==> BlockOf(store, seed, radius, BlockAround(store, seed, radius).value)
  {
    var rows := Window(store, seed.document, Max(0, seed.chunkNo - radius), seed.chunkNo + radius);
    hide Window, MakeBlock, BlockOf;
    forall no ensures no in Nos(rows) <==>
      0 <= no && seed.chunkNo - radius <= no <= seed.chunkNo + radius && (seed.document, no) in store
    {
      if no in Nos(rows) { var k :| 0 <= k < |rows| && rows[k].no == no; }
    }
    MadeBlockIs(store, seed, radius, rows);
  }

  // ----- Rounds

  /** Position `(round, document)` in the order: whole rounds first. */
  predicate Earlier(a: (nat, nat), b: (nat, nat)) {
    a.0 < b.0 || (a.0 == b.0 && a.1 < b.1)
  }

  predicate InRounds(order: seq<(nat, nat)>) {
    forall i, j :: 0 <= i < j < |order| ==> Earlier(order[i], order[j])
  }

  function Longest(lengths: seq<nat>): (m: nat)
    ensures forall d :: 0 <= d < |lengths| ==> lengths[d] <= m
  {
    if lengths == [] then 0 else
      var n := |lengths| - 1;
      var m := Longest(lengths[..n]);
      assert forall d :: 0 <= d < n ==> lengths[..n][d] == lengths[d];
      if lengths[n] > m then lengths[n] else m
  }

  /** Every document's first block, then every document's second one, and so on; each block once. */
  method Interleave(lengths: seq<nat>) returns (order: seq<(nat, nat)>)
    ensures InRounds(order)
    ensures forall i: nat, d: nat :: (i, d) in order <==> d < |lengths| && i < lengths[d]
  {
    order := [];
    var rounds := Longest(lengths);
    var index: nat := 0;
    while index < rounds
      invariant index <= rounds && InRounds(order)
      invariant forall i: nat, d: nat :: (i, d) in order <==> d < |lengths| && i < index && i < lengths[d]
    {
      var doc: nat := 0;
      while doc < |lengths|
        invariant doc <= |lengths| && InRounds(order)
        invariant forall i: nat, d: nat :: (i, d) in order <==>
                    d < |lengths| && i < lengths[d] && (i < index || (i == index && d < doc))
      {
        if index < lengths[doc] {
          assert forall k :: 0 <= k < |order| ==> (order[k].0, order[k].1) in order;
          order := order + [(index, doc)];
        }
        doc := doc + 1;
      }
      index := index + 1;
    }
  }

  // ----- The whole context

  datatype Config = Config(maxDocuments: int, maxSeeds: int, radius: nat, maxBlocks: nat)

  function Only(hits: seq<Hit>, document: nat): (r: seq<Hit>)
    ensures forall h :: h in r <==> h in hits && h.document == document
    ensures forall h :: multiset(r)[h] == if h.document == document then multiset(hits)[h] else 0
  {
    assert hits != [] ==> hits == [hits[0]] + hits[1..];
    if hits == [] then [] else (if hits[0].document == document then [hits[0]] else []) + Only(hits[1..], document)
  }

  /** The blocks around the seeds whose chunks the catalog still has. */
  function BlocksOf(store: map<(nat, int), Row>, seeds: seq<Hit>, radius: nat): seq<Block> {
    if seeds == [] then [] else
      var n := |seeds| - 1;
      var block := BlockAround(store, seeds[n], radius);
      BlocksOf(store, seeds[..n], radius) + if block.Some? then [block.value] else []
  }

  /** `from` says which seed each block is around: every one whose chunk the catalog still has, in order. */
  lemma {:induction false} BlocksAre(store: map<(nat, int), Row>, seeds: seq<Hit>, radius: nat) returns (from: seq<int>)
    ensures |from| == |BlocksOf(store, seeds, radius)| && Ascending(from)
    ensures forall k :: 0 <= k < |from| ==>
              0 <= from[k] < |seeds| && BlockOf(store, seeds[from[k]], radius, BlocksOf(store, seeds, radius)[k])
    ensures forall i :: 0 <= i < |seeds| && 0 <= seeds[i].chunkNo && (seeds[i].document, seeds[i].chunkNo) in store ==> i in from
  {
    hide BlockOf, BlockAround;
    from := [];
    if seeds != [] {
      var n := |seeds| - 1;
      from := BlocksAre(store, seeds[..n], radius);
      BlockIs(store, seeds[n], radius);
      if BlockAround(store, seeds[n], radius).Some? { from := from + [n]; }
    }
  }

  ghost predicate IsBlocks(store: map<(nat, int), Row>, hits: seq<Hit>, document: nat, config: Config, blocks: seq<Block>) {
    exists seeds :: IsSelection(Only(hits, document), config.maxSeeds, seeds) && blocks == BlocksOf(store, seeds, config.radius)
  }

  /** A block that comes from one of the hits. */
  ghost predicate FromHit(store: map<(nat, int), Row>, hits: seq<Hit>, radius: nat, document: nat, b: Block) {
    exists h :: h in hits && h.document == document && BlockAround(store, h, radius) == Some(b)
  }

  ghost predicate AllFrom(store: map<(nat, int), Row>, hits: seq<Hit>, radius: nat, document: nat, blocks: seq<Block>) {
    forall k :: 0 <= k < |blocks| ==> FromHit(store, hits, radius, document, blocks[k])
  }

  lemma BlocksOfStep(store: map<(nat, int), Row>, seeds: seq<Hit>, radius: nat, i: nat)
    requires i < |seeds|
    ensures var block := BlockAround(store, seeds[i], radius);
            BlocksOf(store, seeds[..i + 1], radius)
            == BlocksOf(store, seeds[..i], radius) + if block.Some? then [block.value] else []
  {
    assert seeds[..i + 1][..i] == seeds[..i];
  }

  lemma {:induction false} BlocksOfSeeds(store: map<(nat, int), Row>, seeds: seq<Hit>, radius: nat, hits: seq<Hit>, document: nat)
    requires forall h :: h in seeds ==> h in hits && h.document == document
    ensures |BlocksOf(store, seeds, radius)| <= |seeds|
    ensures AllFrom(store, hits, radius, document, BlocksOf(store, seeds, radius))
  {
    hide BlockAround;
    if seeds != [] {
      var n := |seeds| - 1;
      assert seeds[n] in seeds;
      BlocksOfSeeds(store, seeds[..n], radius, hits, document);
    }
  }

  lemma SelectionIsFrom(store: map<(nat, int), Row>, hits: seq<Hit>, document: nat, config: Config, blocks: seq<Block>)
    requires IsBlocks(store, hits, document, config, blocks)
    ensures AllFrom(store, hits, config.radius, document, blocks)
  {
    hide FromHit, BlockAround, Greedy, Sort, Only;
    var seeds :| IsSelection(Only(hits, document), config.maxSeeds, seeds) && blocks == BlocksOf(store, seeds, config.radius);
    var upto :| 0 <= upto <= |Sort(Only(hits, document))| && seeds == Greedy(Sort(Only(hits, document))[..upto]);
    assert forall h :: h in seeds ==> h in Only(hits, document);
    BlocksOfSeeds(store, seeds, config.radius, hits, document);
  }

  /** The blocks of one document, in the order of its seeds. */
  method DocumentBlocks(store: map<(nat, int), Row>, hits: seq<Hit>, document: nat, config: Config) returns (blocks: seq<Block>)
    ensures config.maxSeeds >= 1 ==> |blocks| <= config.maxSeeds
    ensures IsBlocks(store, hits, document, config, blocks)
  {
    var seeds := SelectDistinctSeeds(Only(hits, document), config.maxSeeds);
    hide IsSelection, BlockAround, Apart;
    blocks := [];
    for i := 0 to |seeds|
      invariant |blocks| <= i && blocks == BlocksOf(store, seeds[..i], config.radius)
    {
      BlocksOfStep(store, seeds, config.radius, i);
      var block := BlockAround(store, seeds[i], config.radius);
      if block.Some? {
        blocks := blocks + [block.value];
      }
    }
    assert seeds[..|seeds|] == seeds;
  }

  ghost predicate Listed(store: map<(nat, int), Row>, hits: seq<Hit>, radius: nat, documents: seq<nat>, b: Block) {
    exists e :: 0 <= e < |documents| && FromHit(store, hits, radius, documents[e], b)
  }

  ghost predicate AllListed(store: map<(nat, int), Row>, hits: seq<Hit>, radius: nat, documents: seq<nat>, blocks: seq<Block>) {
    forall k :: 0 <= k < |blocks| ==> Listed(store, hits, radius, documents, blocks[k])
  }

  lemma ListedIs(store: map<(nat, int), Row>, hits: seq<Hit>, radius: nat, documents: seq<nat>, b: Block)
    requires Listed(store, hits, radius, documents, b)
    ensures WellFormed(b)
    ensures exists h :: h in hits && h.document == b.document && h.document in documents && h.chunkNo == b.seedNo
  {
    var e :| 0 <= e < |documents| && FromHit(store, hits, radius, documents[e], b);
    var h :| h in hits && h.document == documents[e] && BlockAround(store, h, radius) == Some(b);
    AroundWellFormed(store, h, radius);
  }

  /** An accepted block tells of a hit in a listed document. */
  ghost predicate TellsOf(hits: seq<Hit>, documents: seq<nat>, b: Block) {
    exists h :: h in hits && h.document == b.document && h.document in documents && h.chunkNo in b.chunkNos
  }

  lemma AcceptedTell(r: Renderer, store: map<(nat, int), Row>, hits: seq<Hit>, radius: nat, documents: seq<nat>,
                     blocks: seq<Block>, b: Budget, p: Packing, k: nat)
    requires AllListed(store, hits, radius, documents, blocks) && AllWellFormed(blocks)
    requires IsPacking(r, blocks, |documents|, b, p) && k < |p.accepted|
    ensures TellsOf(hits, documents, p.accepted[k])
  {
    hide IsPacking, WellFormed;
    EachWithinShare(r, blocks, |documents|, b, p, k);
    var raw := blocks[p.admitted[k]];
    ListedIs(store, hits, radius, documents, raw);
    var h :| h in hits && h.document == raw.document && h.document in documents && h.chunkNo == raw.seedNo;
    assert h.chunkNo in p.accepted[k].chunkNos;
  }

  lemma {:induction false} AcceptedCount(admitted: seq<nat>, n: nat)
    requires Ascending(admitted) && forall i :: 0 <= i < |admitted| ==> admitted[i] < n
    ensures |admitted| <= n
  {
    if admitted != [] {
      var last := |admitted| - 1;
      AcceptedCount(admitted[..last], admitted[last]);
    }
  }

  /** All the documents' blocks, each document's in the order of its seeds. */
  method AllBlocks(store: map<(nat, int), Row>, hits: seq<Hit>, documents: seq<nat>, config: Config)
    returns (byDocument: seq<seq<Block>>)
    ensures |byDocument| == |documents|
    ensures forall d :: 0 <= d < |documents| ==> IsBlocks(store, hits, documents[d], config, byDocument[d])
  {
    hide IsBlocks;
    byDocument := [];
    for d := 0 to |documents|
      invariant |byDocument| == d
      invariant forall e :: 0 <= e < d ==> IsBlocks(store, hits, documents[e], config, byDocument[e])
    {
      var blocks := DocumentBlocks(store, hits, documents[d], config);
      byDocument := byDocument + [blocks];
    }
  }

  predicate At(lengths: seq<nat>, place: (nat, nat)) {
    place.1 < |lengths| && place.0 < lengths[place.1]
  }

  /** The first places in rounds, at most `limit` of them, with none skipped. */
  ghost predicate FirstRounds(lengths: seq<nat>, limit: nat, order: seq<(nat, nat)>) {
    && InRounds(order) && |order| <= limit
    && (forall k :: 0 <= k < |order| ==> At(lengths, order[k]))
    && (forall place: (nat, nat) :: At(lengths, place) ==>
          place in order || (|order| == limit && forall k :: 0 <= k < |order| ==> Earlier(order[k], place)))
  }

  /** `blocks[:max_blocks]` of the interleaved blocks. */
  method TakeRounds(lengths: seq<nat>, limit: nat) returns (order: seq<(nat, nat)>)
    ensures FirstRounds(lengths, limit, order)
  {
    order := Interleave(lengths);
    ghost var all := order;
    assert forall k :: 0 <= k < |all| ==> (all[k].0, all[k].1) in all;
    if |order| > limit {
      order := order[..limit];
      forall place: (nat, nat) | At(lengths, place) && place !in order
        ensures forall k :: 0 <= k < |order| ==> Earlier(order[k], place)
      {
        assert (place.0, place.1) in all;
        var j :| 0 <= j < |all| && all[j] == place;
        assert forall k :: 0 <= k < limit ==> order[k] == all[k] && order[k] in order;
        assert j >= limit;
      }
    } else {
      assert forall place: (nat, nat) :: At(lengths, place) ==> (place.0, place.1) in order;
    }
  }

  function Lengths(byDocument: seq<seq<Block>>): (r: seq<nat>)
    ensures |r| == |byDocument| && forall d :: 0 <= d < |r| ==> r[d] == |byDocument[d]|
  {
    seq(|byDocument|, d requires 0 <= d < |byDocument| => |byDocument[d]|)
  }

  /** Each document's blocks, and all of them in rounds up to the limit. */
  ghost predicate Arranged(store: map<(nat, int), Row>, hits: seq<Hit>, documents: seq<nat>, config: Config,
                           byDocument: seq<seq<Block>>, order: seq<(nat, nat)>, blocks: seq<Block>)
  {
    && |byDocument| == |documents|
    && (forall d :: 0 <= d < |documents| ==> IsBlocks(store, hits, documents[d], config, byDocument[d]))
    && FirstRounds(Lengths(byDocument), config.maxBlocks, order)
    && |blocks| == |order|
    && forall k :: 0 <= k < |order| ==>
         At(Lengths(byDocument), order[k]) && blocks[k] == byDocument[order[k].1][order[k].0]
  }

  method Arrange(store: map<(nat, int), Row>, hits: seq<Hit>, documents: seq<nat>, config: Config)
    returns (blocks: seq<Block>, byDocument: seq<seq<Block>>, order: seq<(nat, nat)>)
    ensures Arranged(store, hits, documents, config, byDocument, order, blocks)
  {
    var lists := AllBlocks(store, hits, documents, config);
    var places := TakeRounds(Lengths(lists), config.maxBlocks);
    hide IsBlocks, InRounds;
    byDocument, order := lists, places;
    blocks := seq(|places|, k requires 0 <= k < |places| => lists[places[k].1][places[k].0]);
  }

  lemma ArrangedListed(store: map<(nat, int), Row>, hits: seq<Hit>, documents: seq<nat>, config: Config,
                       byDocument: seq<seq<Block>>, order: seq<(nat, nat)>, blocks: seq<Block>)
    requires Arranged(store, hits, documents, config, byDocument, order, blocks)
    ensures AllListed(store, hits, config.radius, documents, blocks) && AllWellFormed(blocks)
  {
    hide IsBlocks, FromHit, WellFormed, FirstRounds;
    forall k | 0 <= k < |blocks| ensures Listed(store, hits, config.radius, documents, blocks[k]) && WellFormed(blocks[k]) {
      var d := order[k].1;
      SelectionIsFrom(store, hits, documents[d], config, byDocument[d]);
      assert FromHit(store, hits, config.radius, documents[d], byDocument[d][order[k].0]);
      ListedIs(store, hits, config.radius, documents, blocks[k]);
    }
  }

  // ----- The ranking of documents

  predicate Occurs(hits: seq<Hit>, document: nat) {
    exists k :: 0 <= k < |hits| && hits[k].document == document
  }

  function DocumentRankOf(h: Hit): nat {
    if h.documentRank == 0 then UNRANKED else h.documentRank
  }

  /** The best rank any hit gives its document. */
  function BestRank(hits: seq<Hit>, document: nat): (r: Option<nat>)
    ensures r.Some? <==> Occurs(hits, document)
    ensures r.Some? ==> exists k :: 0 <= k < |hits| && hits[k].document == document && DocumentRankOf(hits[k]) == r.value
    ensures forall k :: 0 <= k < |hits| && hits[k].document == document ==> r.value <= DocumentRankOf(hits[k])
  {
    if hits == [] then None else
      var n := |hits| - 1;
      assert hits == hits[..n] + [hits[n]];
      var best := BestRank(hits[..n], document);
      if hits[n].document != document then best
      else if best.Some? && best.value <= DocumentRankOf(hits[n]) then best
      else Some(DocumentRankOf(hits[n]))
  }

  /** The index of the first hit of a document. */
  function FirstSeen(hits: seq<Hit>, document: nat): (k: nat)
    ensures k <= |hits| && forall i :: 0 <= i < k ==> hits[i].document != document
    ensures k < |hits| <==> Occurs(hits, document)
    ensures k < |hits| ==> hits[k].document == document
  {
    if hits == [] then 0
    else if hits[0].document == document then assert hits[0].document == document; 0
    else
      assert forall i :: 0 <= i < |hits[1..]| ==> hits[1..][i] == hits[i + 1];
      FirstSeen(hits[1..], document) + 1
  }

  predicate RanksAbove(hits: seq<Hit>, a: nat, b: nat) {
    var x, y := BestRank(hits, a).GetOr(UNRANKED), BestRank(hits, b).GetOr(UNRANKED);
    x < y || (x == y && FirstSeen(hits, a) < FirstSeen(hits, b))
  }

  /** A hit without a document rank is no better than one with any. */
  ghost predicate NoWorse(a: Hit, b: Hit) {
    var x := if a.documentRank == 0 then 1_000_000_000 else a.documentRank;
    var y := if b.documentRank == 0 then 1_000_000_000 else b.documentRank;
    x <= y
  }

  /** A document ranks above another by its best hit; if the other has one as good, by the hit that was seen first. */
  lemma AboveIs(hits: seq<Hit>, a: nat, b: nat)
    requires Occurs(hits, a) && Occurs(hits, b) && RanksAbove(hits, a, b)
    ensures exists i :: 0 <= i < |hits| && hits[i].document == a
                        && forall j :: 0 <= j < |hits| && hits[j].document == b ==> NoWorse(hits[i], hits[j])
    ensures (exists j :: 0 <= j < |hits| && hits[j].document == b
                         && forall i :: 0 <= i < |hits| && hits[i].document == a ==> NoWorse(hits[j], hits[i])) ==>
              exists i :: 0 <= i < |hits| && hits[i].document == a && forall j :: 0 <= j <= i ==> hits[j].document != b
  {
    var i :| 0 <= i < |hits| && hits[i].document == a && DocumentRankOf(hits[i]) == BestRank(hits, a).value;
    assert forall j :: 0 <= j < |hits| && hits[j].document == b ==> NoWorse(hits[i], hits[j]);
    if j :| 0 <= j < |hits| && hits[j].document == b
            && forall i :: 0 <= i < |hits| && hits[i].document == a ==> NoWorse(hits[j], hits[i]) {
      assert NoWorse(hits[j], hits[i]);
      var k := FirstSeen(hits, a);
      assert hits[k].document == a && forall j :: 0 <= j <= k ==> hits[j].document != b;
    }
  }

  ghost predicate InRank(hits: seq<Hit>, documents: seq<nat>) {
    forall i, j :: 0 <= i < j < |documents| ==> RanksAbove(hits, documents[i], documents[j])
  }

  /** Every document with a hit, once, by its best rank and then by its first hit. */
  ghost predicate IsRanking(hits: seq<Hit>, documents: seq<nat>) {
    InRank(hits, documents) && forall d :: d in documents <==> Occurs(hits, d)
  }

  function PlaceDocument(hits: seq<Hit>, d: nat, documents: seq<nat>): (r: seq<nat>)
    ensures forall x :: x in r <==> x == d || x in documents
  {
    if documents == [] || RanksAbove(hits, d, documents[0]) then [d] + documents
    else
      assert documents == [documents[0]] + documents[1..];
      [documents[0]] + PlaceDocument(hits, d, documents[1..])
  }

  lemma RanksDiffer(hits: seq<Hit>, a: nat, b: nat)
    requires Occurs(hits, a) && a != b
    ensures RanksAbove(hits, a, b) || RanksAbove(hits, b, a)
  {
    assert FirstSeen(hits, a) != FirstSeen(hits, b);
  }

  lemma {:induction false} PlaceInRank(hits: seq<Hit>, d: nat, documents: seq<nat>)
    requires InRank(hits, documents) && d !in documents && Occurs(hits, d)
    ensures InRank(hits, PlaceDocument(hits, d, documents))
  {
    if documents != [] {
      var rest := documents[1..];
      RanksDiffer(hits, d, documents[0]);
      if RanksAbove(hits, d, documents[0]) {
        forall k | 0 <= k < |documents| ensures RanksAbove(hits, d, documents[k]) {
          assert k > 0 ==> RanksAbove(hits, documents[0], documents[k]);
        }
      } else {
        PlaceInRank(hits, d, rest);
        var r := PlaceDocument(hits, d, rest);
        forall k | 0 <= k < |r| ensures RanksAbove(hits, documents[0], r[k]) {
          assert r[k] == d || r[k] in rest;
          if r[k] in rest {
            var j :| 0 <= j < |rest| && rest[j] == r[k];
            assert documents[j + 1] == r[k];
          }
        }
      }
    }
  }

  /** How many elements `s[:maximum]` keeps of `n`. */
  function Kept(n: nat, maximum: int): (k: nat)
    ensures k <= n
  {
    if maximum >= 0 then Min(n, maximum) else Max(0, n + maximum)
  }

  /** The documents to show: the first ones of their ranking. */
  method RankDocuments(hits: seq<Hit>, maximum: int) returns (documents: seq<nat>, ranking: seq<nat>)
    ensures IsRanking(hits, ranking) && documents == ranking[..Kept(|ranking|, maximum)]
    ensures |documents| == if maximum < 0 then Max(0, |ranking| + maximum) else Min(|ranking|, maximum)
  {
    var all: seq<nat> := [];
    for k := 0 to |hits|
      invariant InRank(hits, all)
      invariant forall d :: d in all <==> Occurs(hits[..k], d)
    {
      var d := hits[k].document;
      OccursStep(hits, k);
      if d !in all {
        assert Occurs(hits, d);
        PlaceInRank(hits, d, all);
        all := PlaceDocument(hits, d, all);
      }
    }
    assert hits[..|hits|] == hits;
    ranking := all;
    documents := all[..Kept(|all|, maximum)];
  }

  lemma OccursStep(hits: seq<Hit>, k: nat)
    requires k < |hits|
    ensures forall d :: Occurs(hits[..k + 1], d) <==> Occurs(hits[..k], d) || d == hits[k].document
  {
    forall d ensures Occurs(hits[..k + 1], d) <==> Occurs(hits[..k], d) || d == hits[k].document {
      if Occurs(hits[..k], d) {
        var i :| 0 <= i < k && hits[..k][i].document == d;
        assert hits[..k + 1][i].document == d;
      }
      if d == hits[k].document { assert hits[..k + 1][k].document == d; }
      if Occurs(hits[..k + 1], d) && d != hits[k].document {
        var i :| 0 <= i <= k && hits[..k + 1][i].document == d;
        assert i < k && hits[..k][i].document == d;
      }
    }
  }

  /** A document is left out only for documents that rank above it. */
  lemma LeftOutRanksLower(hits: seq<Hit>, ranking: seq<nat>, n: nat, shown: nat, other: nat)
    requires IsRanking(hits, ranking) && n <= |ranking|
    requires shown in ranking[..n] && Occurs(hits, other) && other !in ranking[..n]
    ensures RanksAbove(hits, shown, other)
  {
    var i :| 0 <= i < n && ranking[..n][i] == shown;
    assert other in ranking;
    var j :| 0 <= j < |ranking| && ranking[j] == other;
    assert forall k :: 0 <= k < n ==> ranking[..n][k] == ranking[k] && ranking[k] in ranking[..n];
  }

  /**
   * From the hits to the packed prompt: the best documents are shown, their blocks are packed in whole rounds,
   * every accepted one tells of a hit in one of those documents, and the prompt is within the budget.
   */
  method BuildContext(r: Renderer, store: map<(nat, int), Row>, hits: seq<Hit>, config: Config, b: Budget)
    returns (p: Packing, documents: seq<nat>, ranking: seq<nat>)
    ensures IsRanking(hits, ranking) && documents == ranking[..Kept(|ranking|, config.maxDocuments)]
    ensures exists byDocument, order, blocks ::
              && Arranged(store, hits, documents, config, byDocument, order, blocks) && AllWellFormed(blocks)
              && IsPacking(r, blocks, |documents|, b, p)
    ensures |p.accepted| <= config.maxBlocks
    ensures forall k :: 0 <= k < |p.accepted| ==> TellsOf(hits, documents, p.accepted[k])
    ensures p.rendered != [] && b.tokens.Some? ==> r.count(Joining.Join(p.rendered)) <= Max(1, b.tokens.value)
    ensures p.rendered != [] && b.characters.Some? ==> |Joining.Join(p.rendered)| <= Max(1, b.characters.value)
  {
    documents, ranking := RankDocuments(hits, config.maxDocuments);
    var blocks, byDocument, order := Arrange(store, hits, documents, config);
    ArrangedListed(store, hits, documents, config, byDocument, order, blocks);
    p := Pack(r, blocks, |documents|, b);
    assert |blocks| <= config.maxBlocks;
    hide Arranged, IsPacking, AllListed, AllWellFormed, TellsOf, IsRanking;
    Delivered(r, store, hits, documents, config, b, blocks, p);
  }

  lemma Delivered(r: Renderer, store: map<(nat, int), Row>, hits: seq<Hit>, documents: seq<nat>, config: Config, b: Budget,
                  blocks: seq<Block>, p: Packing)
    requires AllListed(store, hits, config.radius, documents, blocks) && AllWellFormed(blocks)
    requires IsPacking(r, blocks, |documents|, b, p) && |blocks| <= config.maxBlocks
    ensures |p.accepted| <= config.maxBlocks
    ensures forall k :: 0 <= k < |p.accepted| ==> TellsOf(hits, documents, p.accepted[k])
    ensures p.rendered != [] && b.tokens.Some? ==> r.count(Joining.Join(p.rendered)) <= Max(1, b.tokens.value)
    ensures p.rendered != [] && b.characters.Some? ==> |Joining.Join(p.rendered)| <= Max(1, b.characters.value)
  {
    hide IsPacking, TellsOf, AllListed, AllWellFormed;
    InOrder(r, blocks, |documents|, b, p);
    AcceptedCount(p.admitted, |blocks|);
    if p.rendered != [] {
      PromptWithinBudget(r, blocks, |documents|, b, p);
    }
    forall k | 0 <= k < |p.accepted| ensures TellsOf(hits, documents, p.accepted[k]) {
      AcceptedTell(r, store, hits, config.radius, documents, blocks, b, p, k);
    }
  }
}
