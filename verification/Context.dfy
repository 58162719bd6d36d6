/** Packing evidence blocks into a prompt under token and character budgets. */
module Context {
  import opened Basics
  import opened Joining
  import opened Wrappers

  import Text

  /** A chunk as the catalog returns it, or a piece of a block's text paired with a chunk. */
  datatype Row = Row(id: nat, no: int, text: string)

  datatype Block = Block(id: nat, document: nat, seedNo: int, chunkIds: seq<nat>, chunkNos: seq<int>, text: string)

  /** The block's heading lines and the model's token counter, which may be any functions. */
  datatype Renderer = Renderer(heading: Block -> string, count: string -> nat)

  datatype Budget = Budget(tokens: Option<int>, characters: Option<int>)

  // ----- A block and its rows

  function Ids(rows: seq<Row>): (r: seq<nat>)
    ensures |r| == |rows| && forall k :: 0 <= k < |rows| ==> r[k] == rows[k].id
  {
    seq(|rows|, k requires 0 <= k < |rows| => rows[k].id)
  }

  function Nos(rows: seq<Row>): (r: seq<int>)
    ensures |r| == |rows| && forall k :: 0 <= k < |rows| ==> r[k] == rows[k].no
  {
    seq(|rows|, k requires 0 <= k < |rows| => rows[k].no)
  }

  function Texts(rows: seq<Row>): (r: seq<string>)
    ensures |r| == |rows| && forall k :: 0 <= k < |rows| ==> r[k] == rows[k].text
  {
    seq(|rows|, k requires 0 <= k < |rows| => rows[k].text)
  }

  predicate Ascending(nos: seq<int>) {
    forall i, j :: 0 <= i < j < |nos| ==> nos[i] < nos[j]
  }

  /** The block around a seed: its rows in order, their texts joined. */
  function MakeBlock(document: nat, seedNo: int, rows: seq<Row>): Block {
    Block(0, document, seedNo, Ids(rows), Nos(rows), Join(Texts(rows)))
  }

  function ZipRows(ids: seq<nat>, nos: seq<int>, texts: seq<string>): (rows: seq<Row>)
    ensures |rows| <= |ids| && |rows| <= |nos| && |rows| <= |texts|
    ensures |rows| == |ids| || |rows| == |nos| || |rows| == |texts|
    ensures forall k :: 0 <= k < |rows| ==> rows[k] == Row(ids[k], nos[k], texts[k])
  {
    if ids == [] || nos == [] || texts == [] then [] else
      [Row(ids[0], nos[0], texts[0])] + ZipRows(ids[1..], nos[1..], texts[1..])
  }

  function Rows(b: Block): seq<Row> {
    ZipRows(b.chunkIds, b.chunkNos, Split(b.text))
  }

  /** What packing needs of a block; every block made from the catalog has it. */
  predicate WellFormed(b: Block) {
    |b.chunkIds| == |b.chunkNos| <= |Split(b.text)| && Ascending(b.chunkNos) && b.seedNo in b.chunkNos
  }

  lemma MadeWellFormed(document: nat, seedNo: int, rows: seq<Row>)
    requires Ascending(Nos(rows)) && seedNo in Nos(rows)
    ensures WellFormed(MakeBlock(document, seedNo, rows))
  {
    SplitCount(Texts(rows));
  }

  /**
   * Splitting a block's text gives each chunk its own text back exactly when the chunk texts are
   * recoverable: no empty line inside one, no newline at the end of one that another follows.
   */
  lemma RowsRecovered(document: nat, seedNo: int, rows: seq<Row>)
    requires rows != []
    ensures Rows(MakeBlock(document, seedNo, rows)) == rows <==> Recoverable(Texts(rows))
  {
    var b, ts, ps := MakeBlock(document, seedNo, rows), Texts(rows), Split(Join(Texts(rows)));
    SplitCount(ts);
    SplitRecovers(ts);
    FirstPiecesKeepText(b.text, |ts|);
    if Rows(b) == rows {
      assert ps[..|ts|] == ts by {
        assert forall k :: 0 <= k < |ts| ==> Rows(b)[k].text == ps[k];
      }
      assert ps[..|ps|] == ps;
    }
    if Recoverable(ts) {
      assert forall k :: 0 <= k < |rows| ==> Rows(b)[k] == rows[k];
    }
  }

  /** An empty line inside a chunk makes the next chunk's entry carry text of the one before. */
  lemma EmptyLineShiftsText(document: nat, first: Row, a: string, b: string, second: Row)
    requires first.text == a + BREAK + b && Recoverable([a, b, second.text])
    ensures Rows(MakeBlock(document, second.no, [first, second])) == [first.(text := a), second.(text := b)]
  {
    var rows, ps := [first, second], [a, b, second.text];
    assert Texts(rows) == [first.text, second.text] && Ids(rows) == [first.id, second.id] && Nos(rows) == [first.no, second.no];
    JoinedAlike(a, b, second.text);
    SplitOfJoin(ps);
    hide Join, Split, Recoverable;
    assert Split(Join(Texts(rows))) == ps;
  }

  lemma JoinedAlike(a: string, b: string, c: string)
    ensures Join([a + BREAK + b, c]) == Join([a, b, c])
  {
    JoinCons(a + BREAK + b, [c]);
    JoinCons(b, [c]);
    JoinCons(a, [b, c]);
    assert [a] + [b, c] == [a, b, c] && [b] + [c] == [b, c] && [a + BREAK + b] + [c] == [a + BREAK + b, c];
  }

  // ----- The variants of a block

  function IndexOf(nos: seq<int>, no: int): (i: nat)
    requires no in nos
    ensures i < |nos| && nos[i] == no
  {
    if nos[0] == no then 0 else 1 + IndexOf(nos[1..], no)
  }

  function Distance(a: int, b: int): (d: nat)
    ensures d == a - b || d == b - a
  {
    if a < b then b - a else a - b
  }

  /** The row closest to the seed, the first of those equally close. */
  function Nearest(rows: seq<Row>, seed: nat, i: nat): (r: nat)
    requires seed < |rows| && i < |rows| && i != seed
    ensures r < |rows| && r != seed
    ensures forall k :: i <= k < |rows| && k != seed ==>
              Distance(rows[r].no, rows[seed].no) <= Distance(rows[k].no, rows[seed].no)
    decreases |rows| - i
  {
    var next := if i + 1 == seed then i + 2 else i + 1;
    if next >= |rows| then i else
      var r := Nearest(rows, seed, next);
      if Distance(rows[i].no, rows[seed].no) <= Distance(rows[r].no, rows[seed].no) then i else r
  }

  function Variants(rows: seq<Row>, seed: nat): (vs: seq<seq<Row>>)
    requires seed < |rows|
    ensures vs != [] && vs[|vs| - 1] == [rows[seed]] && vs[0] == rows
    ensures forall k :: 0 <= k < |vs| ==> rows[seed] in vs[k] && forall row :: row in vs[k] ==> row in rows
  {
    if |rows| == 1 then [rows, [rows[seed]]] else
      var near := Nearest(rows, seed, if seed == 0 then 1 else 0);
      [rows, if near < seed then [rows[near], rows[seed]] else [rows[seed], rows[near]], [rows[seed]]]
  }

  function Candidate(raw: Block, rows: seq<Row>): Block {
    raw.(chunkIds := Ids(rows), chunkNos := Nos(rows), text := Join(Texts(rows)))
  }

  /** `str.split()` */
  function SplitWords(s: string, i: nat): seq<string>
    requires i <= |s|
    decreases |s| - i
  {
    var a := Text.TrimLeft(s, i, |s|);
    if a == |s| then [] else
      var b := Text.WordEnd(s, a);
      [s[a..b]] + SplitWords(s, b)
  }

  function PrefixBlock(raw: Block, seed: Row, words: seq<string>, m: nat): Block
    requires m <= |words|
  {
    raw.(chunkIds := [seed.id], chunkNos := [seed.no], text := JoinWith(" ", words[..m]))
  }

  // ----- Fitting

  function Format(r: Renderer, b: Block): string {
    r.heading(b) + BREAK + b.text
  }

  predicate Within(r: Renderer, prompt: string, b: Budget) {
    && (b.tokens.Some? ==> r.count(prompt) <= b.tokens.value)
    && (b.characters.Some? ==> |prompt| <= b.characters.value)
  }

  predicate Fits(r: Renderer, rendered: seq<string>, b: Budget, block: Block) {
    Within(r, Join(rendered + [Format(r, block)]), b)
  }

  /** The share of `k` out of `n` documents, never less than 1. */
  function Scaled(total: int, k: nat, n: nat): int
    requires n > 0
  {
    Max(1, total * k / n)
  }

  /** What the block at `index` may fill the prompt up to: during the primary round a proportional share. */
  function Share(total: Option<int>, index: nat, documents: nat): Option<int> {
    if total.None? then None
    else if index < documents then Some(Scaled(total.value, index + 1, documents))
    else total
  }

  function ShareOf(b: Budget, index: nat, documents: nat): Budget {
    Budget(Share(b.tokens, index, documents), Share(b.characters, index, documents))
  }

  /** The first variant that fits, or how many there are. */
  method FirstFitting(r: Renderer, rendered: seq<string>, b: Budget, raw: Block, vs: seq<seq<Row>>) returns (i: nat)
    ensures i <= |vs|
    ensures forall k :: 0 <= k < i ==> !Fits(r, rendered, b, Candidate(raw, vs[k]))
    ensures i < |vs| ==> Fits(r, rendered, b, Candidate(raw, vs[i]))
  {
    i := 0;
    while i < |vs|
      invariant i <= |vs|
      invariant forall k :: 0 <= k < i ==> !Fits(r, rendered, b, Candidate(raw, vs[k]))
    {
      if Fits(r, rendered, b, Candidate(raw, vs[i])) {
        return;
      }
      i := i + 1;
    }
  }

  predicate PrefixFits(r: Renderer, rendered: seq<string>, b: Budget, raw: Block, seed: Row, words: seq<string>, m: nat) {
    m <= |words| && Fits(r, rendered, b, PrefixBlock(raw, seed, words, m))
  }

  /** A prefix that fits while the next longer one does not; 0 when not even one word fits. */
  predicate Settled(r: Renderer, rendered: seq<string>, b: Budget, raw: Block, seed: Row, words: seq<string>, m: nat) {
    && m <= |words|
    && (m > 0 ==> PrefixFits(r, rendered, b, raw, seed, words, m))
    && (m < |words| ==> !PrefixFits(r, rendered, b, raw, seed, words, m + 1))
  }

  /** The binary search over word prefixes. */
  method SearchPrefix(r: Renderer, rendered: seq<string>, b: Budget, raw: Block, seed: Row, words: seq<string>) returns (m: nat)
    ensures Settled(r, rendered, b, raw, seed, words, m)
  {
    m := 0;
    var low: nat, high: nat := 1, |words|;
    while low <= high
      invariant low == m + 1 && m <= high <= |words|
      invariant m > 0 ==> PrefixFits(r, rendered, b, raw, seed, words, m)
      invariant high < |words| ==> !PrefixFits(r, rendered, b, raw, seed, words, high + 1)
      decreases high + 1 - low
    {
      var middle := (low + high) / 2;
      if Fits(r, rendered, b, PrefixBlock(raw, seed, words, middle)) {
        m, low := middle, middle + 1;
      } else {
        high := middle - 1;
      }
    }
  }

  /** A counter for which a shorter prefix never needs more. */
  ghost predicate Monotone(r: Renderer, rendered: seq<string>, b: Budget, raw: Block, seed: Row, words: seq<string>) {
    forall k :: 1 <= k < |words| && PrefixFits(r, rendered, b, raw, seed, words, k + 1)
                ==> PrefixFits(r, rendered, b, raw, seed, words, k)
  }

  /** Under such a counter what the search settles on is the longest prefix that fits. */
  lemma {:induction false} SettledIsLongest(r: Renderer, rendered: seq<string>, b: Budget, raw: Block, seed: Row,
                                            words: seq<string>, m: nat, k: nat)
    requires Settled(r, rendered, b, raw, seed, words, m) && Monotone(r, rendered, b, raw, seed, words)
    requires m < k <= |words|
    ensures !PrefixFits(r, rendered, b, raw, seed, words, k)
    decreases k
  {
    if k > m + 1 {
      SettledIsLongest(r, rendered, b, raw, seed, words, m, k - 1);
    }
  }

  // ----- One block

  function SeedIndex(raw: Block): (i: nat)
    requires WellFormed(raw)
    ensures i < |Rows(raw)| && Rows(raw)[i].no == raw.seedNo
  {
    IndexOf(raw.chunkNos, raw.seedNo)
  }

  /** What is admitted of one block: the first variant that fits, or else a settled prefix of the seed. */
  ghost predicate Choice(r: Renderer, rendered: seq<string>, b: Budget, raw: Block, choice: Option<Block>)
    requires WellFormed(raw)
  {
    var vs := Variants(Rows(raw), SeedIndex(raw));
    var seed := Rows(raw)[SeedIndex(raw)];
    var words := SplitWords(seed.text, 0);
    if exists i :: 0 <= i < |vs| && Fits(r, rendered, b, Candidate(raw, vs[i])) then
      exists i :: 0 <= i < |vs| && Fits(r, rendered, b, Candidate(raw, vs[i])) && choice == Some(Candidate(raw, vs[i]))
                  && forall k :: 0 <= k < i ==> !Fits(r, rendered, b, Candidate(raw, vs[k]))
    else
      exists m :: Settled(r, rendered, b, raw, seed, words, m)
                  && choice == if m == 0 then None else Some(PrefixBlock(raw, seed, words, m))
  }

  /** The first of the rows closest to the seed. */
  ghost predicate IsNearest(rows: seq<Row>, seed: nat, near: nat) {
    && seed < |rows| && near < |rows| && near != seed
    && (forall k :: 0 <= k < |rows| && k != seed ==>
          Distance(rows[near].no, rows[seed].no) <= Distance(rows[k].no, rows[seed].no))
    && (forall k :: 0 <= k < near && k != seed ==> Distance(rows[near].no, rows[seed].no) < Distance(rows[k].no, rows[seed].no))
  }

  /** The block with only these rows fits. */
  ghost predicate RowsFit(r: Renderer, rendered: seq<string>, b: Budget, raw: Block, rows: seq<Row>) {
    Fits(r, rendered, b, raw.(chunkIds := Ids(rows), chunkNos := Nos(rows), text := Join(Texts(rows))))
  }

  /** The seed and the row closest to it, in chunk order; the seed alone if there is no other row. */
  ghost predicate IsPair(rows: seq<Row>, seed: nat, pair: seq<Row>) {
    seed < |rows| &&
    if |rows| == 1 then pair == [rows[seed]]
    else exists near: nat :: IsNearest(rows, seed, near)
                             && pair == if near < seed then [rows[near], rows[seed]] else [rows[seed], rows[near]]
  }

  /**
   * What is admitted of a block: all of it if that fits, or else the seed with the row closest to it, or else the seed,
   * or else the words of the seed up to a place where they fit and one word more does not, if one word fits at all.
   */
  ghost predicate Decided(r: Renderer, rendered: seq<string>, b: Budget, raw: Block, rows: seq<Row>, seed: nat,
                          pair: seq<Row>, choice: Option<Block>)
    requires seed < |rows|
  {
    if RowsFit(r, rendered, b, raw, rows) then ChosenRows(raw, rows, choice)
    else if RowsFit(r, rendered, b, raw, pair) then ChosenRows(raw, pair, choice)
    else if RowsFit(r, rendered, b, raw, [rows[seed]]) then ChosenRows(raw, [rows[seed]], choice)
    else exists m: nat :: ChosenWords(r, rendered, b, raw, rows[seed], m, choice)
  }

  ghost predicate ChosenRows(raw: Block, rows: seq<Row>, choice: Option<Block>) {
    choice == Some(raw.(chunkIds := Ids(rows), chunkNos := Nos(rows), text := Join(Texts(rows))))
  }

  /** The block with the first `m` words of the seed, single spaces between them, fits. */
  ghost predicate WordsFit(r: Renderer, rendered: seq<string>, b: Budget, raw: Block, seed: Row, m: nat) {
    && m <= Text.WordCount(seed.text)
    && Fits(r, rendered, b, raw.(chunkIds := [seed.id], chunkNos := [seed.no], text := FirstWords(seed.text, m)))
  }

  ghost predicate ChosenWords(r: Renderer, rendered: seq<string>, b: Budget, raw: Block, seed: Row, m: nat,
                              choice: Option<Block>) {
    && m <= Text.WordCount(seed.text)
    && (m < Text.WordCount(seed.text) ==> !WordsFit(r, rendered, b, raw, seed, m + 1))
    && if m == 0 then choice == None
       else WordsFit(r, rendered, b, raw, seed, m)
            && choice == Some(raw.(chunkIds := [seed.id], chunkNos := [seed.no], text := FirstWords(seed.text, m)))
  }

  /** The first `m` words of a text with one space between any two. */
  ghost function FirstWords(s: string, m: nat): string
    requires m <= Text.WordCount(s)
  {
    if m == 0 then "" else
      var w := Text.Words(s, 0)[m - 1];
      Text.WordsFrom(s, 0, m - 1);
      if m == 1 then s[w.start..w.end] else FirstWords(s, m - 1) + " " + s[w.start..w.end]
  }

  lemma {:induction false} SplitWordsAre(s: string, i: nat)
    requires i <= |s|
    ensures var words := Text.Words(s, i);
            |SplitWords(s, i)| == |words| && forall k :: 0 <= k < |words| ==>
              i <= words[k].start <= words[k].end <= |s| && SplitWords(s, i)[k] == s[words[k].start..words[k].end]
    decreases |s| - i
  {
    hide Text.IsSpace;
    var a := Text.TrimLeft(s, i, |s|);
    WordsSkip(s, i, a);
    if a < |s| {
      SplitWordsAre(s, Text.WordEnd(s, a));
    }
  }

  lemma {:induction false} WordsSkip(s: string, i: nat, a: nat)
    requires i <= a <= |s| && Text.AllSpace(s, i, a)
    ensures Text.Words(s, i) == Text.Words(s, a)
    decreases a - i
  {
    hide Text.IsSpace;
    if i < a { WordsSkip(s, i + 1, a); }
  }

  lemma {:induction false} JoinLast(sep: string, ts: seq<string>)
    requires |ts| >= 2
    ensures JoinWith(sep, ts) == JoinWith(sep, ts[..|ts| - 1]) + sep + ts[|ts| - 1]
  {
    if |ts| == 2 {
      assert ts[1..] == [ts[1]] && ts[..1] == [ts[0]];
    } else {
      JoinLast(sep, ts[1..]);
      assert ts[..|ts| - 1][1..] == ts[1..][..|ts| - 2];
    }
  }

  lemma {:induction false} FirstWordsAre(s: string, m: nat)
    requires m <= Text.WordCount(s)
    ensures m <= |SplitWords(s, 0)| && JoinWith(" ", SplitWords(s, 0)[..m]) == FirstWords(s, m)
    decreases m
  {
    SplitWordsAre(s, 0);
    hide Text.Words, SplitWords;
    var words := SplitWords(s, 0);
    if m == 1 {
      assert words[..1] == [words[0]];
    } else if m > 1 {
      FirstWordsAre(s, m - 1);
      JoinLast(" ", words[..m]);
      assert words[..m][..m - 1] == words[..m - 1];
    }
  }

  lemma {:induction false} NearestIsFirst(rows: seq<Row>, seed: nat, i: nat)
    requires seed < |rows| && i < |rows| && i != seed
    ensures var near := Nearest(rows, seed, i);
            && i <= near < |rows| && near != seed
            && forall k :: i <= k < near && k != seed ==>
                 Distance(rows[near].no, rows[seed].no) < Distance(rows[k].no, rows[seed].no)
    decreases |rows| - i
  {
    hide Distance;
    var next := if i + 1 == seed then i + 2 else i + 1;
    if next < |rows| {
      NearestIsFirst(rows, seed, next);
      var near := Nearest(rows, seed, next);
      assert forall k :: next <= k < |rows| && k != seed ==>
               Distance(rows[near].no, rows[seed].no) <= Distance(rows[k].no, rows[seed].no);
      assert next == i + 1 || (next == i + 2 && seed == i + 1);
      hide Nearest;
      assert Distance(rows[i].no, rows[seed].no) <= Distance(rows[near].no, rows[seed].no)
             || Distance(rows[near].no, rows[seed].no) < Distance(rows[i].no, rows[seed].no) by {
        DistancesCompare(rows[i].no, rows[near].no, rows[seed].no);
      }
    }
  }

  lemma DistancesCompare(a: int, b: int, c: int)
    ensures Distance(a, c) <= Distance(b, c) || Distance(b, c) < Distance(a, c)
  {
  }

  /** The variants are those three, the second one missing if there is only one row. */
  lemma VariantsAre(rows: seq<Row>, seed: nat)
    requires seed < |rows|
    ensures var vs := Variants(rows, seed);
            && vs[0] == rows && vs[|vs| - 1] == [rows[seed]]
            && (if |rows| == 1 then |vs| == 2 else |vs| == 3 && IsPair(rows, seed, vs[1]))
  {
    if |rows| > 1 {
      var first := if seed == 0 then 1 else 0;
      NearestIsFirst(rows, seed, first);
      var near := Nearest(rows, seed, first);
      hide Nearest, Distance;
      assert IsNearest(rows, seed, near);
    }
  }

  /** There is one such pair. */
  lemma PairIsOne(rows: seq<Row>, seed: nat, pair: seq<Row>, other: seq<Row>)
    requires IsPair(rows, seed, pair) && IsPair(rows, seed, other)
    ensures pair == other
  {
    if |rows| > 1 {
      var near: nat :| IsNearest(rows, seed, near)
                       && pair == if near < seed then [rows[near], rows[seed]] else [rows[seed], rows[near]];
      var far: nat :| IsNearest(rows, seed, far)
                      && other == if far < seed then [rows[far], rows[seed]] else [rows[seed], rows[far]];
      hide Distance;
      assert Distance(rows[near].no, rows[seed].no) == Distance(rows[far].no, rows[seed].no);
      assert near == far;
    }
  }

  lemma VariantsOffered(rows: seq<Row>, seed: nat, pair: seq<Row>)
    requires IsPair(rows, seed, pair)
    ensures AreVariants(rows, seed, pair, Variants(rows, seed))
  {
    var vs := Variants(rows, seed);
    VariantsAre(rows, seed);
    if |rows| > 1 {
      PairIsOne(rows, seed, pair, vs[1]);
      assert vs == [vs[0], vs[1], vs[2]];
    } else {
      assert vs == [vs[0], vs[1]];
    }
  }

  lemma ChoiceIsDecided(r: Renderer, rendered: seq<string>, b: Budget, raw: Block, choice: Option<Block>, pair: seq<Row>)
    requires WellFormed(raw) && Choice(r, rendered, b, raw, choice) && IsPair(Rows(raw), SeedIndex(raw), pair)
    ensures Decided(r, rendered, b, raw, Rows(raw), SeedIndex(raw), pair, choice)
  {
    hide Variants, Rows, SplitWords, Split, Fits, IsPair, SeedIndex, PrefixFits, PrefixBlock, Decided, AreVariants, Candidate,
      RowsFit, ChosenWords, WellFormed;
    var rows, seed := Rows(raw), SeedIndex(raw);
    var vs, words := Variants(rows, seed), SplitWords(rows[seed].text, 0);
    VariantsOffered(rows, seed, pair);
    CandidatesFit(r, rendered, b, raw, vs);
    if i :| 0 <= i < |vs| && Fits(r, rendered, b, Candidate(raw, vs[i])) && choice == Some(Candidate(raw, vs[i]))
            && forall k :: 0 <= k < i ==> !Fits(r, rendered, b, Candidate(raw, vs[k])) {
      DecidedByRows(r, rendered, b, raw, rows, seed, pair, vs, i, choice);
    } else {
      var m :| Settled(r, rendered, b, raw, rows[seed], words, m)
               && choice == if m == 0 then None else Some(PrefixBlock(raw, rows[seed], words, m));
      SettledWords(r, rendered, b, raw, rows[seed], m, choice);
      DecidedByWords(r, rendered, b, raw, rows, seed, pair, vs, m, choice);
    }
  }

  lemma CandidatesFit(r: Renderer, rendered: seq<string>, b: Budget, raw: Block, vs: seq<seq<Row>>)
    ensures forall k :: 0 <= k < |vs| ==> Fits(r, rendered, b, Candidate(raw, vs[k])) == RowsFit(r, rendered, b, raw, vs[k])
  {
    hide Fits;
  }

  ghost predicate AreVariants(rows: seq<Row>, seed: nat, pair: seq<Row>, vs: seq<seq<Row>>)
    requires seed < |rows|
  {
    vs == [rows, pair, [rows[seed]]] || (vs == [rows, [rows[seed]]] && pair == [rows[seed]])
  }

  lemma DecidedByRows(r: Renderer, rendered: seq<string>, b: Budget, raw: Block, rows: seq<Row>, seed: nat, pair: seq<Row>,
                      vs: seq<seq<Row>>, i: nat, choice: Option<Block>)
    requires seed < |rows| && AreVariants(rows, seed, pair, vs)
    requires i < |vs| && RowsFit(r, rendered, b, raw, vs[i]) && forall k :: 0 <= k < i ==> !RowsFit(r, rendered, b, raw, vs[k])
    requires choice == Some(Candidate(raw, vs[i]))
    ensures Decided(r, rendered, b, raw, rows, seed, pair, choice)
  {
    assert ChosenRows(raw, vs[i], choice);
    hide RowsFit, ChosenRows;
    assert i > 0 ==> !RowsFit(r, rendered, b, raw, vs[0]);
    assert i > 1 ==> !RowsFit(r, rendered, b, raw, vs[1]);
    assert vs[i] == if i == 0 then rows else if i == 1 then pair else [rows[seed]];
  }

  lemma DecidedByWords(r: Renderer, rendered: seq<string>, b: Budget, raw: Block, rows: seq<Row>, seed: nat, pair: seq<Row>,
                       vs: seq<seq<Row>>, m: nat, choice: Option<Block>)
    requires seed < |rows| && AreVariants(rows, seed, pair, vs)
    requires forall k :: 0 <= k < |vs| ==> !RowsFit(r, rendered, b, raw, vs[k])
    requires ChosenWords(r, rendered, b, raw, rows[seed], m, choice)
    ensures Decided(r, rendered, b, raw, rows, seed, pair, choice)
  {
    hide RowsFit, ChosenWords;
    assert !RowsFit(r, rendered, b, raw, vs[0]) && !RowsFit(r, rendered, b, raw, vs[1])
           && !RowsFit(r, rendered, b, raw, vs[|vs| - 1]);
  }

  lemma PrefixIs(raw: Block, seed: Row, m: nat)
    requires m <= Text.WordCount(seed.text)
    ensures m <= |SplitWords(seed.text, 0)| && PrefixBlock(raw, seed, SplitWords(seed.text, 0), m)
            == raw.(chunkIds := [seed.id], chunkNos := [seed.no], text := FirstWords(seed.text, m))
  {
    FirstWordsAre(seed.text, m);
  }

  lemma SettledWords(r: Renderer, rendered: seq<string>, b: Budget, raw: Block, seed: Row, m: nat, choice: Option<Block>)
    requires Settled(r, rendered, b, raw, seed, SplitWords(seed.text, 0), m)
    requires choice == if m == 0 then None else Some(PrefixBlock(raw, seed, SplitWords(seed.text, 0), m))
    ensures ChosenWords(r, rendered, b, raw, seed, m, choice)
  {
    SplitWordsAre(seed.text, 0);
    PrefixIs(raw, seed, m);
    if m < Text.WordCount(seed.text) { PrefixIs(raw, seed, m + 1); }
    hide Fits, SplitWords, Text.Words, FirstWords, PrefixBlock;
  }

  method Choose(r: Renderer, rendered: seq<string>, b: Budget, raw: Block) returns (choice: Option<Block>)
    requires WellFormed(raw)
    ensures Choice(r, rendered, b, raw, choice)
    ensures forall pair :: IsPair(Rows(raw), SeedIndex(raw), pair) ==>
              Decided(r, rendered, b, raw, Rows(raw), SeedIndex(raw), pair, choice)
  {
    hide Variants, Rows, SplitWords, Split, Fits, IsPair, SeedIndex, Settled, PrefixBlock, Decided, Candidate, WellFormed;
    var rows := Rows(raw);
    var seed := SeedIndex(raw);
    var vs := Variants(rows, seed);
    var i := FirstFitting(r, rendered, b, raw, vs);
    if i < |vs| {
      choice := Some(Candidate(raw, vs[i]));
    } else {
      var words := SplitWords(rows[seed].text, 0);
      var m := SearchPrefix(r, rendered, b, raw, rows[seed], words);
      choice := if m == 0 then None else Some(PrefixBlock(raw, rows[seed], words, m));
    }
    assert Choice(r, rendered, b, raw, choice);
    hide Choice;
    forall pair | IsPair(rows, seed, pair) ensures Decided(r, rendered, b, raw, rows, seed, pair, choice) {
      ChoiceIsDecided(r, rendered, b, raw, choice, pair);
    }
  }

  /** Whatever is admitted fits, stays within its block's chunks and keeps the seed. */
  lemma ChoiceKeepsSeed(r: Renderer, rendered: seq<string>, b: Budget, raw: Block, choice: Option<Block>)
    requires WellFormed(raw) && Choice(r, rendered, b, raw, choice) && choice.Some?
    ensures Fits(r, rendered, b, choice.value)
    ensures choice.value.document == raw.document && choice.value.id == raw.id
    ensures raw.seedNo in choice.value.chunkNos
    ensures forall no :: no in choice.value.chunkNos ==> no in raw.chunkNos
  {
    hide SplitWords, Split, Format, Within;
    var rows, vs := Rows(raw), Variants(Rows(raw), SeedIndex(raw));
    forall i | 0 <= i < |vs| ensures
      var c := Candidate(raw, vs[i]);
      raw.seedNo in c.chunkNos && forall no :: no in c.chunkNos ==> no in raw.chunkNos
    {
      var k :| 0 <= k < |vs[i]| && vs[i][k] == rows[SeedIndex(raw)];
      assert Nos(vs[i])[k] == raw.seedNo;
      forall no | no in Nos(vs[i]) ensures no in raw.chunkNos {
        var j :| 0 <= j < |vs[i]| && vs[i][j].no == no;
        assert vs[i][j] in rows;
      }
    }
  }

  // ----- All blocks

  datatype Packing = Packing(accepted: seq<Block>, rendered: seq<string>, admitted: seq<nat>)

  ghost predicate AllWellFormed(blocks: seq<Block>) {
    forall k :: 0 <= k < |blocks| ==> WellFormed(blocks[k])
  }

  /**
   * The packing of `blocks` in their order: each is offered what its share leaves, numbered after the ones
   * already accepted; `admitted` tells which block each accepted one came from.
   */
  ghost predicate IsPacking(r: Renderer, blocks: seq<Block>, documents: nat, b: Budget, p: Packing)
    requires AllWellFormed(blocks)
    decreases |blocks|
  {
    if blocks == [] then p == Packing([], [], []) else
      var last, n := |blocks| - 1, |p.accepted|;
      if p.admitted != [] && p.admitted[|p.admitted| - 1] == last then
        && n == |p.rendered| == |p.admitted|
        && var before := Packing(p.accepted[..n - 1], p.rendered[..n - 1], p.admitted[..n - 1]);
        && IsPacking(r, blocks[..last], documents, b, before)
        && Choice(r, before.rendered, ShareOf(b, last, documents), blocks[last].(id := n), Some(p.accepted[n - 1]))
        && p.rendered[n - 1] == Format(r, p.accepted[n - 1])
      else
        && IsPacking(r, blocks[..last], documents, b, p)
        && Choice(r, p.rendered, ShareOf(b, last, documents), blocks[last].(id := n + 1), None)
  }

  method Pack(r: Renderer, blocks: seq<Block>, documents: nat, b: Budget) returns (p: Packing)
    requires AllWellFormed(blocks)
    ensures IsPacking(r, blocks, documents, b, p)
  {
    p := Packing([], [], []);
    var index := 0;
    while index < |blocks|
      invariant index <= |blocks|
      invariant IsPacking(r, blocks[..index], documents, b, p)
    {
      p := Offer(r, blocks, index, documents, b, p);
      index := index + 1;
    }
    assert blocks[..index] == blocks;
  }

  /** One turn of the loop: offer the block at `index` what its share leaves. */
  method Offer(r: Renderer, blocks: seq<Block>, index: nat, documents: nat, b: Budget, p: Packing) returns (q: Packing)
    requires AllWellFormed(blocks) && index < |blocks|
    requires IsPacking(r, blocks[..index], documents, b, p)
    ensures IsPacking(r, blocks[..index + 1], documents, b, q)
  {
    hide IsPacking, Choice, ShareOf, Format;
    var raw := blocks[index].(id := |p.accepted| + 1);
    var choice := Choose(r, p.rendered, ShareOf(b, index, documents), raw);
    Extend(r, blocks[..index], blocks[index], documents, b, p, choice);
    assert blocks[..index] + [blocks[index]] == blocks[..index + 1];
    q := p;
    if choice.Some? {
      q := Packing(p.accepted + [choice.value], p.rendered + [Format(r, choice.value)], p.admitted + [index]);
    }
  }

  function Extended(r: Renderer, p: Packing, index: nat, choice: Option<Block>): Packing {
    if choice.None? then p
    else Packing(p.accepted + [choice.value], p.rendered + [Format(r, choice.value)], p.admitted + [index])
  }

  lemma Extend(r: Renderer, blocks: seq<Block>, raw: Block, documents: nat, b: Budget, p: Packing, choice: Option<Block>)
    requires AllWellFormed(blocks) && WellFormed(raw)
    requires IsPacking(r, blocks, documents, b, p)
    requires Choice(r, p.rendered, ShareOf(b, |blocks|, documents), raw.(id := |p.accepted| + 1), choice)
    ensures AllWellFormed(blocks + [raw])
    ensures IsPacking(r, blocks + [raw], documents, b, Extended(r, p, |blocks|, choice))
  {
    hide Choice, ShareOf;
    var more, q, n := blocks + [raw], Extended(r, p, |blocks|, choice), |p.accepted|;
    assert more[..|blocks|] == blocks;
    InOrder(r, blocks, documents, b, p);
    if choice.Some? {
      assert q.accepted[..n] == p.accepted && q.rendered[..n] == p.rendered && q.admitted[..n] == p.admitted;
    }
  }

  /** The accepted blocks come in the order of the blocks, numbered from 1. */
  lemma {:induction false} InOrder(r: Renderer, blocks: seq<Block>, documents: nat, b: Budget, p: Packing)
    requires AllWellFormed(blocks) && IsPacking(r, blocks, documents, b, p)
    ensures |p.accepted| == |p.rendered| == |p.admitted|
    ensures Ascending(p.admitted) && forall i :: 0 <= i < |p.admitted| ==> p.admitted[i] < |blocks|
    ensures forall i :: 0 <= i < |p.rendered| ==>
              p.rendered[i] == r.heading(p.accepted[i]) + "\n\n" + p.accepted[i].text
    decreases |blocks|
  {
    hide Choice, ShareOf, WellFormed;
    if blocks != [] {
      var last, n := |blocks| - 1, |p.accepted|;
      if p.admitted != [] && p.admitted[|p.admitted| - 1] == last {
        var before := Packing(p.accepted[..n - 1], p.rendered[..n - 1], p.admitted[..n - 1]);
        InOrder(r, blocks[..last], documents, b, before);
        assert p.admitted == before.admitted + [last];
        assert p.rendered == before.rendered + [p.rendered[n - 1]];
        assert p.accepted == before.accepted + [p.accepted[n - 1]];
      } else {
        InOrder(r, blocks[..last], documents, b, p);
      }
    }
  }

  /** Each accepted block keeps its seed and, when it is added, the prompt is within the block's share. */
  lemma {:induction false} EachWithinShare(r: Renderer, blocks: seq<Block>, documents: nat, b: Budget, p: Packing, i: nat)
    requires AllWellFormed(blocks) && IsPacking(r, blocks, documents, b, p) && i < |p.accepted|
    ensures |p.accepted| == |p.rendered| == |p.admitted| && p.admitted[i] < |blocks|
    ensures Within(r, Join(p.rendered[..i + 1]), ShareOf(b, p.admitted[i], documents))
    ensures p.accepted[i].id == i + 1 && p.accepted[i].document == blocks[p.admitted[i]].document
    ensures blocks[p.admitted[i]].seedNo in p.accepted[i].chunkNos
    decreases |blocks|
  {
    hide Choice, Format, ShareOf, WellFormed, Within, Join;
    InOrder(r, blocks, documents, b, p);
    var last, n := |blocks| - 1, |p.accepted|;
    if p.admitted[n - 1] == last {
      var before := Packing(p.accepted[..n - 1], p.rendered[..n - 1], p.admitted[..n - 1]);
      if i < n - 1 {
        EachWithinShare(r, blocks[..last], documents, b, before, i);
        assert before.rendered[..i + 1] == p.rendered[..i + 1];
      } else {
        Admitted(r, before.rendered, ShareOf(b, last, documents), blocks[last], n, p.accepted[n - 1]);
        assert p.rendered[..n] == before.rendered + [p.rendered[n - 1]];
      }
    } else {
      EachWithinShare(r, blocks[..last], documents, b, p, i);
    }
  }

  lemma Admitted(r: Renderer, rendered: seq<string>, b: Budget, raw: Block, n: nat, c: Block)
    requires WellFormed(raw) && Choice(r, rendered, b, raw.(id := n), Some(c))
    ensures Within(r, Join(rendered + [Format(r, c)]), b)
    ensures c.id == n && c.document == raw.document && raw.seedNo in c.chunkNos
  {
    ChoiceKeepsSeed(r, rendered, b, raw.(id := n), Some(c));
  }

  /** How many accepted blocks come from the first `k` blocks. */
  function AdmittedBelow(admitted: seq<nat>, k: nat): (m: nat)
    ensures m <= |admitted|
  {
    if admitted == [] then 0
    else if admitted[|admitted| - 1] < k then |admitted|
    else AdmittedBelow(admitted[..|admitted| - 1], k)
  }

  lemma {:induction false} AdmittedBelowIs(admitted: seq<nat>, k: nat)
    requires Ascending(admitted)
    ensures forall i :: 0 <= i < |admitted| ==> (i < AdmittedBelow(admitted, k) <==> admitted[i] < k)
  {
    if admitted != [] {
      var front := admitted[..|admitted| - 1];
      AdmittedBelowIs(front, k);
      assert forall i :: 0 <= i < |front| ==> front[i] == admitted[i];
    }
  }

  /** What the block at `k` may fill the prompt up to: a proportional share among the first blocks, then everything. */
  lemma ShareIs(b: Budget, k: nat, documents: nat)
    ensures var share := ShareOf(b, k, documents);
            && (share.tokens.Some? <==> b.tokens.Some?) && (share.characters.Some? <==> b.characters.Some?)
            && (b.tokens.Some? ==>
                  share.tokens.value == (if k < documents then Max(1, b.tokens.value * (k + 1) / documents) else b.tokens.value))
            && (b.characters.Some? ==>
                  share.characters.value
                  == (if k < documents then Max(1, b.characters.value * (k + 1) / documents) else b.characters.value))
  {
  }

  /**
   * Each block is offered what its share leaves behind the blocks accepted before it, and it is accepted exactly if
   * something of it is chosen.
   */
  lemma {:induction false} EachIsOffered(r: Renderer, blocks: seq<Block>, documents: nat, b: Budget, p: Packing, k: nat)
    requires AllWellFormed(blocks) && IsPacking(r, blocks, documents, b, p) && k < |blocks|
    ensures |p.accepted| == |p.rendered| == |p.admitted|
    ensures var m := AdmittedBelow(p.admitted, k);
            var taken := m < |p.admitted| && p.admitted[m] == k;
            && (taken <==> k in p.admitted)
            && Choice(r, p.rendered[..m], ShareOf(b, k, documents), blocks[k].(id := m + 1),
                      if taken then Some(p.accepted[m]) else None)
    decreases |blocks|
  {
    hide Choice, Format, ShareOf, WellFormed, AdmittedBelow;
    InOrder(r, blocks, documents, b, p);
    AdmittedBelowIs(p.admitted, k);
    var last, n := |blocks| - 1, |p.accepted|;
    if p.admitted != [] && p.admitted[|p.admitted| - 1] == last {
      var before := Packing(p.accepted[..n - 1], p.rendered[..n - 1], p.admitted[..n - 1]);
      if k < last {
        EachIsOffered(r, blocks[..last], documents, b, before, k);
        InOrder(r, blocks[..last], documents, b, before);
        AdmittedBelowIs(before.admitted, k);
        AdmittedPrefix(p.admitted, k);
        assert before.rendered[..AdmittedBelow(before.admitted, k)] == p.rendered[..AdmittedBelow(p.admitted, k)];
      } else {
        assert AdmittedBelow(p.admitted, k) == n - 1;
      }
    } else if k < last {
      EachIsOffered(r, blocks[..last], documents, b, p, k);
    } else {
      assert AdmittedBelow(p.admitted, k) == n && p.rendered[..n] == p.rendered;
    }
  }

  lemma AdmittedPrefix(admitted: seq<nat>, k: nat)
    requires Ascending(admitted) && admitted != [] && k <= admitted[|admitted| - 1]
    ensures AdmittedBelow(admitted, k) == AdmittedBelow(admitted[..|admitted| - 1], k)
  {
  }

  lemma Scales(n: nat, a: int, b: int)
    ensures a <= b ==> n * a <= n * b
  {
  }

  lemma Divides(x: int, y: int, n: nat)
    requires n > 0 && x <= y
    ensures x / n <= y / n
  {
    var q, t := x / n, y / n;
    assert x == n * q + x % n && y == n * t + y % n;
    Scales(n, t + 1, q);
    assert n * (t + 1) == n * t + n;
  }

  lemma DivideProduct(x: int, n: nat)
    requires n > 0
    ensures n * x / n == x
  {
    var y := n * x;
    var q := y / n;
    assert y == n * q + y % n;
    Scales(n, x + 1, q);
    Scales(n, q + 1, x);
    assert n * (x + 1) == n * x + n && n * (q + 1) == n * q + n;
  }

  lemma ScaledGrows(total: int, a: nat, b: nat, n: nat)
    requires n > 0 && a <= b <= n
    ensures Scaled(total, a, n) <= Scaled(total, b, n) <= Max(1, total)
  {
    if total > 0 {
      Scales(total, a, b);
      Scales(total, b, n);
      Divides(total * a, total * b, n);
      Divides(total * b, total * n, n);
      DivideProduct(total, n);
      assert total * n == n * total;
    } else {
      Scales(-total, 0, a);
      Scales(-total, 0, b);
      Divides(total * a, 0, n);
      Divides(total * b, 0, n);
    }
  }

  /** The shares grow with the position, up to the whole budget, or 1 if the budget is smaller. */
  lemma ShareGrows(total: int, i: nat, j: nat, documents: nat)
    requires i <= j < documents
    ensures Share(Some(total), i, documents).value <= Share(Some(total), j, documents).value <= Max(1, total)
  {
    ScaledGrows(total, i + 1, j + 1, documents);
  }

  /**
   * After the first `k` blocks of the primary round the prompt holds at most the share of `k` documents,
   * whatever the counter is, so what the blocks before leave is there for the documents still to come.
   */
  lemma PrimaryShare(r: Renderer, blocks: seq<Block>, documents: nat, b: Budget, p: Packing, k: nat)
    requires AllWellFormed(blocks) && IsPacking(r, blocks, documents, b, p) && b.tokens.Some?
    requires 0 < k <= documents
    ensures |p.admitted| == |p.rendered|
    ensures var m := AdmittedBelow(p.admitted, k);
            m > 0 ==> r.count(Join(p.rendered[..m])) <= Scaled(b.tokens.value, k, documents)
  {
    hide IsPacking, AllWellFormed, Join, Scaled;
    InOrder(r, blocks, documents, b, p);
    AdmittedBelowIs(p.admitted, k);
    var m := AdmittedBelow(p.admitted, k);
    if m > 0 {
      EachWithinShare(r, blocks, documents, b, p, m - 1);
      ShareGrows(b.tokens.value, p.admitted[m - 1], k - 1, documents);
    }
  }

  /** The prompt never exceeds the token budget, or one token if the budget is smaller than that. */
  lemma PromptWithinBudget(r: Renderer, blocks: seq<Block>, documents: nat, b: Budget, p: Packing)
    requires AllWellFormed(blocks) && IsPacking(r, blocks, documents, b, p) && p.rendered != []
    ensures b.tokens.Some? ==> r.count(Join(p.rendered)) <= Max(1, b.tokens.value)
    ensures b.characters.Some? ==> |Join(p.rendered)| <= Max(1, b.characters.value)
  {
    hide IsPacking, Join, Scaled;
    InOrder(r, blocks, documents, b, p);
    var n := |p.rendered|;
    EachWithinShare(r, blocks, documents, b, p, n - 1);
    assert p.rendered[..n] == p.rendered;
    var a := p.admitted[n - 1];
    if a < documents {
      if b.tokens.Some? { ShareGrows(b.tokens.value, a, a, documents); }
      if b.characters.Some? { ShareGrows(b.characters.value, a, a, documents); }
    }
  }

  /** A budget of nothing still lets a prompt of one token in: the share is never less than 1. */
  lemma EmptyBudgetAdmits(r: Renderer, raw: Block, p: Packing)
    requires WellFormed(raw) && r.count(Join([Format(r, Candidate(raw.(id := 1), Rows(raw)))])) == 1
    requires IsPacking(r, [raw], 1, Budget(Some(0), None), p)
    ensures |p.accepted| == 1 && r.count(Join(p.rendered)) == 1
  {
    var blocks, b := [raw], Budget(Some(0), None);
    var first := raw.(id := 1);
    var vs := Variants(Rows(first), SeedIndex(first));
    assert ShareOf(b, 0, 1) == Budget(Some(1), None);
    assert blocks[..0] == [];
    assert [] + [Format(r, Candidate(first, vs[0]))] == [Format(r, Candidate(first, Rows(raw)))];
    assert Fits(r, [], ShareOf(b, 0, 1), Candidate(first, vs[0]));
    if p.admitted != [] && p.admitted[|p.admitted| - 1] == 0 {
      assert Packing(p.accepted[..|p.accepted| - 1], p.rendered[..|p.accepted| - 1], p.admitted[..|p.accepted| - 1])
             == Packing([], [], []);
      assert p.accepted[0] == Candidate(first, vs[0]);
      assert p.rendered == [Format(r, Candidate(first, Rows(raw)))];
    }
  }

  // ----- The context window

  function AnswerTokens(requested: int, window: int, prompt: int, safety: int): int {
    var room := Max(0, window - prompt - safety);
    if requested < room then requested else room
  }

  function PhysicalBudget(window: int, answer: int, safety: int, prompt: int): int {
    Max(0, window - answer - safety - prompt)
  }

  function TokenBudget(physical: int, maxEvidence: Option<int>): int {
    if maxEvidence.None? || physical < maxEvidence.value then physical else maxEvidence.value
  }

  /**
   * The answer gets what is asked for, or what prompt and safety leave of the window, if that is less; the evidence what
   * all three leave, or the most it is allowed.
   */
  lemma ReservesAre(window: int, requested: nat, prompt: nat, safety: nat, maxEvidence: Option<int>)
    ensures var answer := AnswerTokens(requested, window, prompt, safety);
            var physical := PhysicalBudget(window, answer, safety, prompt);
            var tokens := TokenBudget(physical, maxEvidence);
            && 0 <= answer <= requested && (answer > 0 ==> prompt + safety + answer <= window)
            && (answer < requested ==> prompt + safety + answer + 1 > window)
            && 0 <= physical && (physical > 0 ==> prompt + answer + safety + physical == window)
            && (prompt + answer + safety < window ==> physical > 0)
            && tokens <= physical && (maxEvidence.Some? ==> tokens <= maxEvidence.value)
            && (tokens == physical || Some(tokens) == maxEvidence)
  {
  }

  /**
   * With evidence within the budget, the fixed prompt, the evidence, the answer and the safety reserve fit
   * the window exactly when the physical budget is not empty.
   */
  lemma WindowFits(window: int, requested: int, prompt: nat, safety: nat, maxEvidence: Option<int>, evidence: nat)
    requires var answer := AnswerTokens(requested, window, prompt, safety);
             1 <= evidence <= Max(1, TokenBudget(PhysicalBudget(window, answer, safety, prompt), maxEvidence))
    ensures var answer := AnswerTokens(requested, window, prompt, safety);
            prompt + evidence + answer + safety <= window
            <==> PhysicalBudget(window, answer, safety, prompt) >= 1
  {
  }

  /** So a packed prompt fits the window exactly then. */
  lemma PackedFitsWindow(r: Renderer, blocks: seq<Block>, documents: nat, characters: Option<int>, p: Packing,
                         window: int, requested: int, prompt: nat, safety: nat, maxEvidence: Option<int>)
    requires AllWellFormed(blocks) && p.rendered != [] && r.count(Join(p.rendered)) >= 1
    requires var answer := AnswerTokens(requested, window, prompt, safety);
             var tokens := TokenBudget(PhysicalBudget(window, answer, safety, prompt), maxEvidence);
             IsPacking(r, blocks, documents, Budget(Some(tokens), characters), p)
    ensures var answer := AnswerTokens(requested, window, prompt, safety);
            prompt + r.count(Join(p.rendered)) + answer + safety <= window
            <==> PhysicalBudget(window, answer, safety, prompt) >= 1
  {
    hide IsPacking, Join, AllWellFormed;
    var answer := AnswerTokens(requested, window, prompt, safety);
    var tokens := TokenBudget(PhysicalBudget(window, answer, safety, prompt), maxEvidence);
    PromptWithinBudget(r, blocks, documents, Budget(Some(tokens), characters), p);
    WindowFits(window, requested, prompt, safety, maxEvidence, r.count(Join(p.rendered)));
  }
}
