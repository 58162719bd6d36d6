/**
 * The first half of the chunker: what its three regular expressions cut a text into.  Each of them is a
 * scanner here; the units they yield are shown to be slices of the text that miss no visible character.
 */
module ChunkUnits {
  import opened Basics
  import opened Text

  datatype Unit = Unit(text: string, start: nat, end: nat, heading: string, isHeading: bool)

  const HEADING_WORDS := 12

  // ----- Paragraphs: [^\n]+(?:\n(?!\s*\n)[^\n]+)*

  function LineEnd(t: string, i: nat): (j: nat)
    requires i <= |t|
    ensures i <= j <= |t| && (j < |t| ==> t[j] == '\n')
    ensures i < |t| && t[i] != '\n' ==> i < j
    decreases |t| - i
  {
    if i == |t| || t[i] == '\n' then i else LineEnd(t, i + 1)
  }

  /** Whether `\s*\n` matches at `k`. */
  predicate BlankAhead(t: string, k: nat)
    decreases |t| - k
  {
    k < |t| && (t[k] == '\n' || (IsSpace(t[k]) && BlankAhead(t, k + 1)))
  }

  function ParagraphEnd(t: string, i: nat): (j: nat)
    requires i < |t| && t[i] != '\n'
    ensures i < j <= |t| && (j < |t| ==> t[j] == '\n')
    decreases |t| - i
  {
    var j := LineEnd(t, i);
    if j + 1 < |t| && !BlankAhead(t, j + 1) then ParagraphEnd(t, j + 1) else j
  }

  /** An empty line, spaces aside, begins at `k`. */
  ghost predicate EmptyLine(t: string, k: nat) {
    exists m :: k <= m < |t| && t[m] == '\n' && forall q :: k <= q < m ==> IsSpace(t[q])
  }

  lemma {:induction false} BlankAheadIs(t: string, k: nat)
    ensures BlankAhead(t, k) <==> EmptyLine(t, k)
    decreases |t| - k
  {
    hide IsSpace;
    if k < |t| {
      BlankAheadIs(t, k + 1);
      if BlankAhead(t, k) && t[k] != '\n' {
        var m :| k + 1 <= m < |t| && t[m] == '\n' && forall q :: k + 1 <= q < m ==> IsSpace(t[q]);
        assert forall q :: k <= q < m ==> IsSpace(t[q]);
      }
      if EmptyLine(t, k) && t[k] != '\n' {
        var m :| k <= m < |t| && t[m] == '\n' && forall q :: k <= q < m ==> IsSpace(t[q]);
        assert IsSpace(t[k]) && EmptyLine(t, k + 1);
      }
    }
  }

  /** A line break that ends a paragraph: an empty line or nothing follows. */
  ghost predicate Breaks(t: string, j: nat) {
    j < |t| && t[j] == '\n' && (j + 1 == |t| || EmptyLine(t, j + 1))
  }

  /** A paragraph goes on to the first line break that ends one, or to the end of the text. */
  lemma {:induction false} ParagraphEndIs(t: string, i: nat)
    requires i < |t| && t[i] != '\n'
    ensures var j := ParagraphEnd(t, i);
            i < j <= |t| && (j < |t| ==> Breaks(t, j)) && forall k :: i <= k < j ==> !Breaks(t, k)
    decreases |t| - i
  {
    hide IsSpace, EmptyLine;
    var j := LineEnd(t, i);
    LineEndIs(t, i);
    BlankAheadIs(t, j + 1);
    if j + 1 < |t| && !BlankAhead(t, j + 1) {
      ParagraphEndIs(t, j + 1);
    }
  }

  lemma {:induction false} LineEndIs(t: string, i: nat)
    requires i <= |t|
    ensures forall k :: i <= k < LineEnd(t, i) ==> t[k] != '\n'
    decreases |t| - i
  {
    if i < |t| && t[i] != '\n' { LineEndIs(t, i + 1); }
  }

  // ----- Sentences: .*?(?:[.!?](?=\s|$)|$)

  function SentenceEnd(s: string, i: nat): (j: nat)
    requires i < |s|
    ensures i < j <= |s|
    decreases |s| - i
  {
    if s[i] in ".!?" && (i + 1 == |s| || IsSpace(s[i + 1])) then i + 1
    else if i + 1 == |s| then |s|
    else SentenceEnd(s, i + 1)
  }

  /** The non-blank sentences of `s` from `i` on, trimmed. */
  function Sentences(s: string, i: nat): (spans: seq<Span>)
    requires i <= |s|
    ensures forall k :: 0 <= k < |spans| ==> i <= spans[k].start < spans[k].end <= |s|
    decreases |s| - i
  {
    if i == |s| then [] else
      var j := SentenceEnd(s, i);
      var trimmed := Trim(s, i, j);
      (if trimmed.start < trimmed.end then [trimmed] else []) + Sentences(s, j)
  }

  /** A sentence ends behind a full stop, question or exclamation mark that a space or the end of the text follows. */
  ghost predicate EndsSentence(s: string, j: nat) {
    0 < j <= |s| && s[j - 1] in ".!?" && (j == |s| || IsSpace(s[j]))
  }

  lemma {:induction false} SentenceEndIs(s: string, i: nat)
    requires i < |s|
    ensures var j := SentenceEnd(s, i);
            i < j <= |s| && (EndsSentence(s, j) || j == |s|) && forall k :: i < k < j ==> !EndsSentence(s, k)
    decreases |s| - i
  {
    hide IsSpace;
    if !(s[i] in ".!?" && (i + 1 == |s| || IsSpace(s[i + 1]))) && i + 1 < |s| { SentenceEndIs(s, i + 1); }
  }

  lemma SpacesAreNoMarks()
    ensures forall c :: c in ".!?" ==> !IsSpace(c)
  {
  }

  /** Sentences are cut where they end and nowhere else. */
  lemma {:induction false} SentencesEndWell(s: string, i: nat, k: nat)
    requires i <= |s| && k < |Sentences(s, i)|
    ensures var span := Sentences(s, i)[k];
            && (EndsSentence(s, span.end) || AllSpace(s, span.end, |s|))
            && forall m :: span.start < m < span.end ==> !EndsSentence(s, m)
    decreases |s| - i
  {
    hide IsSpace;
    SpacesAreNoMarks();
    var j := SentenceEnd(s, i);
    var trimmed := Trim(s, i, j);
    SentenceEndIs(s, i);
    if trimmed.start < trimmed.end {
      if k > 0 {
        SentencesEndWell(s, j, k - 1);
      } else if EndsSentence(s, j) {
        assert !IsSpace(s[j - 1]) && trimmed.end == j;
      }
    }
  }

  // ----- Units

  /** Consecutive groups of at most `maxWords` words, each as one span. */
  function Pieces(words: seq<Span>, maxWords: nat): seq<Span>
    requires maxWords >= 1
  {
    if words == [] then [] else
      var k := Min(maxWords, |words|);
      [Span(words[0].start, words[k - 1].end)] + Pieces(words[k..], maxWords)
  }

  function SentencePieces(sentence: string, maxWords: nat): seq<Span>
    requires maxWords >= 1
  {
    if WordCount(sentence) <= maxWords then [Span(0, |sentence|)]
    else Pieces(Words(sentence, 0), maxWords)
  }

  predicate Within(spans: seq<Span>, n: nat) {
    forall k :: 0 <= k < |spans| ==> spans[k].start <= spans[k].end <= n
  }

  /** The units a sentence that starts at `a` in the text is appended as. */
  function SentenceUnits(sentence: string, a: nat, heading: string, spans: seq<Span>): (units: seq<Unit>)
    requires Within(spans, |sentence|)
    ensures |units| == |spans|
  {
    seq(|spans|, k requires 0 <= k < |spans| =>
      Unit(sentence[spans[k].start..spans[k].end], a + spans[k].start, a + spans[k].end, heading, false))
  }

  lemma {:induction false} PiecesStep(spans: seq<Span>, i: nat, maxWords: nat)
    requires maxWords >= 1 && i < |spans|
    ensures var next := Min(i + maxWords, |spans|);
            Pieces(spans[i..], maxWords) ==
            [Span(spans[i].start, spans[next - 1].end)] + Pieces(spans[next..], maxWords)
  {
    var next, rest := Min(i + maxWords, |spans|), spans[i..];
    var k := Min(maxWords, |rest|);
    assert rest[0] == spans[i] && rest[k - 1] == spans[next - 1];
    assert rest[k..] == spans[next..];
  }

  /** Grouping the spans of a tiling leaves a tiling. */
  lemma {:induction false} PiecesTile(s: string, words: seq<Span>, lo: nat, hi: nat, maxWords: nat)
    requires maxWords >= 1 && Tiles(s, words, lo, hi)
    ensures Tiles(s, Pieces(words, maxWords), lo, hi)
    decreases |words|
  {
    assert Pieces([], maxWords) == [];
    hide IsSpace, AllSpace, Pieces;
    if words != [] {
      var k := Min(maxWords, |words|);
      PiecesStep(words, 0, maxWords);
      assert words[0..] == words;
      TilesDrop(s, words, lo, hi, k);
      PiecesTile(s, words[k..], words[k - 1].end, hi, maxWords);
      TileAt(s, words, lo, hi, k - 1);
      if k > 1 { TilesInOrder(s, words, lo, hi, 0, k - 1); }
    }
  }

  ghost predicate PieceFits(s: string, p: Span, maxWords: nat, last: bool) {
    && p.start <= p.end <= |s| && 1 <= WordCount(s[p.start..p.end]) <= maxWords
    && (last || WordCount(s[p.start..p.end]) == maxWords)
  }

  lemma SliceFits(s: string, from: nat, size: nat, maxWords: nat, last: bool)
    requires 1 <= size <= maxWords && from + size <= WordCount(s) && (last || size == maxWords)
    ensures var words := Words(s, 0);
            PieceFits(s, Span(words[from].start, words[from + size - 1].end), maxWords, last)
  {
    hide IsSpace, Words;
    WordCountOfSlice(s, from, from + size);
  }

  /** The groups of the words of `s` from word `from` on. */
  function Groups(s: string, from: nat, maxWords: nat): seq<Span>
    requires maxWords >= 1 && from <= WordCount(s)
  {
    Pieces(Words(s, 0)[from..], maxWords)
  }

  lemma GroupsEnd(s: string, maxWords: nat)
    requires maxWords >= 1
    ensures Groups(s, WordCount(s), maxWords) == []
  {
  }

  /** The first group of the words from `from` on: all of `maxWords` words, unless no words are left behind it. */
  lemma FirstPiece(s: string, from: nat, maxWords: nat) returns (p: Span, size: nat)
    requires maxWords >= 1 && from < WordCount(s)
    ensures 1 <= size && from + size <= WordCount(s)
    ensures Groups(s, from, maxWords) == [p] + Groups(s, from + size, maxWords)
    ensures PieceFits(s, p, maxWords, Groups(s, from + size, maxWords) == [])
  {
    hide IsSpace, Words, PieceFits;
    var words := Words(s, 0);
    size := Min(maxWords, |words| - from);
    p := Span(words[from].start, words[from + size - 1].end);
    PiecesStep(words, from, maxWords);
    SliceFits(s, from, size, maxWords, Groups(s, from + size, maxWords) == []);
  }

  /** Each group of words, cut out of the sentence, holds `maxWords` words again, the last one at most as many. */
  lemma {:induction false} PiecesCount(s: string, from: nat, maxWords: nat, k: nat)
    requires maxWords >= 1 && from <= WordCount(s)
    requires k < |Groups(s, from, maxWords)|
    ensures var ps := Groups(s, from, maxWords);
            PieceFits(s, ps[k], maxWords, k == |ps| - 1)
    decreases k
  {
    GroupsEnd(s, maxWords);
    hide *;
    var p, size := FirstPiece(s, from, maxWords);
    if k > 0 { PiecesCount(s, from + size, maxWords, k - 1); }
  }

  predicate VisibleEnds(s: string) {
    s != "" && !IsSpace(s[0]) && !IsSpace(s[|s| - 1])
  }

  lemma SentencePiecesTile(sentence: string, maxWords: nat)
    requires maxWords >= 1 && VisibleEnds(sentence)
    ensures var spans := SentencePieces(sentence, maxWords);
            && Tiles(sentence, spans, 0, |sentence|)
            && Within(spans, |sentence|)
  {
    WordsTile(sentence, 0);
    PiecesTile(sentence, Words(sentence, 0), 0, |sentence|, maxWords);
    var spans := SentencePieces(sentence, maxWords);
    forall k | 0 <= k < |spans| ensures spans[k].start <= spans[k].end <= |sentence| {
      TileAt(sentence, spans, 0, |sentence|, k);
    }
  }

  predicate IsHeading(value: string, isUpper: string -> bool) {
    var text := Strip(value);
    text != "" && WordCount(text) <= HEADING_WORDS && (text[|text| - 1] == ':' || text[0] == '#' || isUpper(text))
  }

  function DropLeft(s: string, chars: set<char>): string {
    if s != "" && s[0] in chars then DropLeft(s[1..], chars) else s
  }

  function DropRight(s: string, chars: set<char>): string {
    if s != "" && s[|s| - 1] in chars then DropRight(s[..|s| - 1], chars) else s
  }

  function Label(raw: string): string {
    Strip(DropRight(DropLeft(raw, {'#', ' '}), {':'}))
  }

  /** What is cut off on the left and what is kept. */
  lemma {:induction false} DropLeftIs(s: string, chars: set<char>)
    ensures var kept := DropLeft(s, chars);
            && |kept| <= |s| && kept == s[|s| - |kept|..] && (kept != "" ==> kept[0] !in chars)
            && forall k :: 0 <= k < |s| - |kept| ==> s[k] in chars
  {
    if s != "" && s[0] in chars {
      var rest := s[1..];
      DropLeftIs(rest, chars);
      hide DropLeft;
      var n := |rest| - |DropLeft(rest, chars)|;
      assert s[n + 1..] == rest[n..] && DropLeft(s, chars) == DropLeft(rest, chars);
      assert forall k :: 0 < k < n + 1 ==> s[k] == rest[k - 1];
    }
  }

  lemma {:induction false} DropRightIs(s: string, chars: set<char>)
    ensures var kept := DropRight(s, chars);
            && |kept| <= |s| && kept == s[..|kept|] && (kept != "" ==> kept[|kept| - 1] !in chars)
            && forall k :: |kept| <= k < |s| ==> s[k] in chars
  {
    if s != "" && s[|s| - 1] in chars { DropRightIs(s[..|s| - 1], chars); }
  }

  /** The label of a heading is the heading without marks and spaces in front, and without colons and then spaces behind. */
  lemma LabelIs(raw: string)
    ensures exists a: nat, b: nat :: LabelAt(raw, a, b)
  {
    var left := DropLeft(raw, {'#', ' '});
    var right := DropRight(left, {':'});
    DropLeftIs(raw, {'#', ' '});
    DropRightIs(left, {':'});
    var a, b := |raw| - |left|, |raw| - |left| + |right|;
    var t := Trim(right, 0, |right|);
    assert raw[a..b] == right;
    assert forall k :: b <= k < |raw| ==> raw[k] == left[k - a];
    hide IsSpace;
    assert LabelAt(raw, a, b);
  }

  /** The label is `raw[a..b]` trimmed: marks and spaces stand before `a`, colons behind `b`. */
  ghost predicate LabelAt(raw: string, a: nat, b: nat) {
    && a <= b <= |raw| && Label(raw) == Strip(raw[a..b])
    && (forall k :: 0 <= k < a ==> raw[k] in {'#', ' '}) && (a < |raw| ==> raw[a] !in {'#', ' '})
    && (forall k :: b <= k < |raw| ==> raw[k] == ':') && (a < b ==> raw[b - 1] != ':')
  }

  /** `_sentences`: the trimmed sentences of a paragraph with their places in the text. */
  datatype Sentence = Sentence(value: string, start: nat, end: nat)

  function SentenceRows(raw: string, offset: nat, spans: seq<Span>): (rows: seq<Sentence>)
    requires Within(spans, |raw|)
    ensures |rows| == |spans|
  {
    seq(|spans|, k requires 0 <= k < |spans| =>
      Sentence(raw[spans[k].start..spans[k].end], offset + spans[k].start, offset + spans[k].end))
  }

  function UnitsOfRows(rows: seq<Sentence>, heading: string, maxWords: nat): seq<Unit>
    requires maxWords >= 1 && forall r :: r in rows ==> VisibleEnds(r.value)
  {
    if rows == [] then [] else
      assert rows[0] in rows;
      SentencePiecesTile(rows[0].value, maxWords);
      SentenceUnits(rows[0].value, rows[0].start, heading, SentencePieces(rows[0].value, maxWords))
      + UnitsOfRows(rows[1..], heading, maxWords)
  }

  lemma {:induction false} SentencesTile(s: string, i: nat)
    requires i <= |s|
    ensures Tiles(s, Sentences(s, i), i, |s|)
    decreases |s| - i
  {
    hide IsSpace;
    if i < |s| {
      var j := SentenceEnd(s, i);
      var trimmed := Trim(s, i, j);
      SentencesTile(s, j);
      if trimmed.start < trimmed.end {
        assert Tiles(s, [trimmed], i, j);
        TilesConcat(s, [trimmed], Sentences(s, j), i, j, |s|);
      } else {
        assert Sentences(s, i) == Sentences(s, j);
        TilesWiden(s, Sentences(s, j), i, j, |s|, |s|);
      }
    }
  }

  lemma SentenceRowsVisible(raw: string, offset: nat, i: nat)
    requires i <= |raw|
    ensures forall r :: r in SentenceRows(raw, offset, Sentences(raw, i)) ==> VisibleEnds(r.value)
  {
    hide IsSpace, Sentences;
    var spans := Sentences(raw, i);
    SentencesTile(raw, i);
    forall k | 0 <= k < |spans|
      ensures spans[k].start < spans[k].end <= |raw|
      ensures VisibleEnds(raw[spans[k].start..spans[k].end])
    {
      TileAt(raw, spans, i, |raw|, k);
    }
  }

  /** The units of one paragraph, whose trimmed text `raw` starts at `start`. */
  function ParagraphUnits(raw: string, start: nat, heading: string, maxWords: nat, isUpper: string -> bool): seq<Unit>
    requires maxWords >= 1
  {
    if raw == "" then []
    else if IsHeading(raw, isUpper) then [Unit(raw, start, start + |raw|, Label(raw), true)]
    else
      SentenceRowsVisible(raw, start, 0);
      UnitsOfRows(SentenceRows(raw, start, Sentences(raw, 0)), heading, maxWords)
  }

  function HeadingAfter(raw: string, heading: string, isUpper: string -> bool): string {
    if raw != "" && IsHeading(raw, isUpper) then Label(raw) else heading
  }

  /** The units of the text from `i` on, under the heading seen last. */
  function Units(text: string, i: nat, heading: string, maxWords: nat, isUpper: string -> bool): seq<Unit>
    requires i <= |text| && maxWords >= 1
    decreases |text| - i
  {
    if i == |text| then []
    else if text[i] == '\n' then Units(text, i + 1, heading, maxWords, isUpper)
    else
      var j := ParagraphEnd(text, i);
      var trimmed := Trim(text, i, j);
      var raw := text[trimmed.start..trimmed.end];
      ParagraphUnits(raw, trimmed.start, heading, maxWords, isUpper)
      + Units(text, j, HeadingAfter(raw, heading, isUpper), maxWords, isUpper)
  }

  function UnitSpans(units: seq<Unit>): (spans: seq<Span>)
    ensures |spans| == |units| && forall k :: 0 <= k < |units| ==> spans[k] == Span(units[k].start, units[k].end)
  {
    seq(|units|, k requires 0 <= k < |units| => Span(units[k].start, units[k].end))
  }

  /** A unit is a slice of the text, of bounded size. */
  ghost predicate UnitOk(text: string, u: Unit, maxWords: nat) {
    && u.start < u.end <= |text|
    && u.text == text[u.start..u.end]
    && 1 <= WordCount(u.text) <= (if u.isHeading then HEADING_WORDS else maxWords)
  }

  /** The units are right and, in order, leave no visible character of the range out. */
  ghost predicate UnitsTile(text: string, units: seq<Unit>, maxWords: nat, lo: nat, hi: nat) {
    (forall u :: u in units ==> UnitOk(text, u, maxWords)) && Tiles(text, UnitSpans(units), lo, hi)
  }

  lemma UnitsTileConcat(text: string, a: seq<Unit>, b: seq<Unit>, maxWords: nat, lo: nat, mid: nat, hi: nat)
    requires UnitsTile(text, a, maxWords, lo, mid) && UnitsTile(text, b, maxWords, mid, hi)
    ensures UnitsTile(text, a + b, maxWords, lo, hi)
  {
    hide IsSpace, Tiles;
    TilesConcat(text, UnitSpans(a), UnitSpans(b), lo, mid, hi);
    assert UnitSpans(a + b) == UnitSpans(a) + UnitSpans(b);
  }

  lemma PieceOk(text: string, a: nat, b: nat, heading: string, maxWords: nat, k: nat)
    requires a < b <= |text| && VisibleEnds(text[a..b]) && maxWords >= 1
    requires k < |SentencePieces(text[a..b], maxWords)|
    ensures var p := SentencePieces(text[a..b], maxWords)[k];
            && p.start < p.end <= b - a
            && UnitOk(text, Unit(text[a..b][p.start..p.end], a + p.start, a + p.end, heading, false), maxWords)
  {
    hide IsSpace, Tiles, Words, Pieces;
    var sentence := text[a..b];
    var p := SentencePieces(sentence, maxWords)[k];
    SentencePiecesTile(sentence, maxWords);
    TileAt(sentence, SentencePieces(sentence, maxWords), 0, |sentence|, k);
    SliceOfSlice(text, a, b, p.start, p.end);
    if WordCount(sentence) <= maxWords {
      StripTight(sentence);
      assert sentence[0..|sentence|] == sentence;
    } else {
      assert Words(sentence, 0)[0..] == Words(sentence, 0);
      assert Groups(sentence, 0, maxWords) == SentencePieces(sentence, maxWords);
      PiecesCount(sentence, 0, maxWords, k);
    }
  }

  lemma SentenceUnitsTile(text: string, a: nat, b: nat, heading: string, maxWords: nat)
    requires a < b <= |text| && VisibleEnds(text[a..b]) && maxWords >= 1
    ensures var sentence := text[a..b];
            && Within(SentencePieces(sentence, maxWords), b - a)
            && UnitsTile(text, SentenceUnits(sentence, a, heading, SentencePieces(sentence, maxWords)), maxWords, a, b)
  {
    hide IsSpace, Tiles, SentencePieces, UnitOk;
    var sentence := text[a..b];
    var spans := SentencePieces(sentence, maxWords);
    SentencePiecesTile(sentence, maxWords);
    var units := SentenceUnits(sentence, a, heading, spans);
    forall k | 0 <= k < |units| ensures UnitOk(text, units[k], maxWords) { PieceOk(text, a, b, heading, maxWords, k); }
    TilesShift(text, a, b, spans, 0, |sentence|);
    assert UnitSpans(units) == Shift(spans, a);
  }

  ghost predicate RowsTile(text: string, rows: seq<Sentence>, lo: nat, hi: nat) {
    && (forall r :: r in rows ==> r.start < r.end <= |text| && r.value == text[r.start..r.end] && VisibleEnds(r.value))
    && Tiles(text, RowSpans(rows), lo, hi)
  }

  function RowSpans(rows: seq<Sentence>): (spans: seq<Span>)
    ensures |spans| == |rows| && forall k :: 0 <= k < |rows| ==> spans[k] == Span(rows[k].start, rows[k].end)
  {
    seq(|rows|, k requires 0 <= k < |rows| => Span(rows[k].start, rows[k].end))
  }

  lemma {:induction false} UnitsOfRowsTile(text: string, rows: seq<Sentence>, heading: string, maxWords: nat,
                                           lo: nat, hi: nat)
    requires maxWords >= 1 && RowsTile(text, rows, lo, hi)
    ensures UnitsTile(text, UnitsOfRows(rows, heading, maxWords), maxWords, lo, hi)
    decreases |rows|
  {
    hide IsSpace, SentencePieces, UnitOk;
    if rows == [] {
      assert UnitSpans([]) == [];
    } else {
      var a, b := rows[0].start, rows[0].end;
      assert RowSpans(rows)[1..] == RowSpans(rows[1..]);
      UnitsOfRowsTile(text, rows[1..], heading, maxWords, b, hi);
      SentenceUnitsTile(text, a, b, heading, maxWords);
      var first := SentenceUnits(rows[0].value, a, heading, SentencePieces(rows[0].value, maxWords));
      UnitsTileConcat(text, first, UnitsOfRows(rows[1..], heading, maxWords), maxWords, a, b, hi);
      TilesWiden(text, UnitSpans(UnitsOfRows(rows, heading, maxWords)), lo, a, hi, hi);
    }
  }

  lemma ParagraphRowsTile(text: string, a: nat, b: nat)
    requires a < b <= |text|
    ensures var spans := Sentences(text[a..b], 0);
            RowsTile(text, SentenceRows(text[a..b], a, spans), a, b)
  {
    hide IsSpace, Tiles, Sentences, VisibleEnds;
    var raw := text[a..b];
    var spans := Sentences(raw, 0);
    SentenceRowsVisible(raw, a, 0);
    SentencesTile(raw, 0);
    TilesShift(text, a, b, spans, 0, b - a);
    var rows := SentenceRows(raw, a, spans);
    forall k | 0 <= k < |rows|
      ensures rows[k].start < rows[k].end <= |text| && rows[k].value == text[rows[k].start..rows[k].end]
    {
      TileAt(raw, spans, 0, |raw|, k);
      SliceOfSlice(text, a, b, spans[k].start, spans[k].end);
    }
    assert RowSpans(rows) == Shift(spans, a);
  }

  lemma ParagraphUnitsTile(text: string, i: nat, j: nat, heading: string, maxWords: nat, isUpper: string -> bool)
    requires i <= j <= |text| && maxWords >= 1
    ensures var trimmed := Trim(text, i, j);
            var raw := text[trimmed.start..trimmed.end];
            UnitsTile(text, ParagraphUnits(raw, trimmed.start, heading, maxWords, isUpper), maxWords, i, j)
  {
    hide IsSpace, UnitsTile, RowsTile, UnitOk, IsHeading, Label, Sentences, UnitsOfRows, Tiles;
    var trimmed := Trim(text, i, j);
    var raw := text[trimmed.start..trimmed.end];
    if raw == "" {
      NoUnitsTile(text, i, j, maxWords);
    } else if IsHeading(raw, isUpper) {
      HeadingTiles(text, i, j, trimmed, Label(raw), maxWords, isUpper);
    } else {
      ParagraphRowsTile(text, trimmed.start, trimmed.end);
      var rows := SentenceRows(raw, trimmed.start, Sentences(raw, 0));
      SentenceRowsVisible(raw, trimmed.start, 0);
      UnitsOfRowsTile(text, rows, heading, maxWords, trimmed.start, trimmed.end);
      UnitsTileWiden(text, UnitsOfRows(rows, heading, maxWords), maxWords, i, trimmed.start, trimmed.end, j);
    }
  }

  /** The units of a text leave out nothing but spaces, and each is a bounded slice of it. */
  lemma {:induction false} UnitsAreTiles(text: string, i: nat, heading: string, maxWords: nat, isUpper: string -> bool)
    requires i <= |text| && maxWords >= 1
    ensures UnitsTile(text, Units(text, i, heading, maxWords, isUpper), maxWords, i, |text|)
    decreases |text| - i
  {
    hide IsSpace, UnitsTile, ParagraphEnd, Trim, ParagraphUnits, HeadingAfter;
    if i == |text| {
      NoUnitsTile(text, i, i, maxWords);
    } else if text[i] == '\n' {
      UnitsAreTiles(text, i + 1, heading, maxWords, isUpper);
      BreakThenRest(text, i, Units(text, i + 1, heading, maxWords, isUpper), maxWords);
    } else {
      var j := ParagraphEnd(text, i);
      var trimmed := Trim(text, i, j);
      var raw := text[trimmed.start..trimmed.end];
      var first, rest := ParagraphUnits(raw, trimmed.start, heading, maxWords, isUpper),
                         Units(text, j, HeadingAfter(raw, heading, isUpper), maxWords, isUpper);
      UnitsAreTiles(text, j, HeadingAfter(raw, heading, isUpper), maxWords, isUpper);
      ParagraphUnitsTile(text, i, j, heading, maxWords, isUpper);
      assert Units(text, i, heading, maxWords, isUpper) == first + rest;
      hide Units;
      UnitsTileConcat(text, first, rest, maxWords, i, j, |text|);
    }
  }

  /** All units are sentences, or parts of them, under one heading. */
  ghost predicate Plain(units: seq<Unit>, heading: string) {
    forall u :: u in units ==> !u.isHeading && u.heading == heading
  }

  lemma {:induction false} RowsArePlain(rows: seq<Sentence>, heading: string, maxWords: nat)
    requires maxWords >= 1 && forall r :: r in rows ==> VisibleEnds(r.value)
    ensures Plain(UnitsOfRows(rows, heading, maxWords), heading)
    decreases |rows|
  {
    hide SentencePieces, IsSpace, VisibleEnds;
    if rows != [] {
      assert rows[0] in rows;
      SentencePiecesTile(rows[0].value, maxWords);
      RowsArePlain(rows[1..], heading, maxWords);
    }
  }

  /**
   * A paragraph is one heading unit exactly if it has at most 12 words and ends with a colon, starts with a mark or is
   * in capitals; otherwise it gives sentences under the heading before.
   */
  lemma ParagraphIsHeadingIff(raw: string, start: nat, heading: string, maxWords: nat, isUpper: string -> bool)
    requires maxWords >= 1 && VisibleEnds(raw)
    ensures var units := ParagraphUnits(raw, start, heading, maxWords, isUpper);
            if WordCount(raw) <= 12 && (raw[|raw| - 1] == ':' || raw[0] == '#' || isUpper(raw))
            then units == [Unit(raw, start, start + |raw|, Label(raw), true)] && HeadingAfter(raw, heading, isUpper) == Label(raw)
            else Plain(units, heading) && HeadingAfter(raw, heading, isUpper) == heading
  {
    hide IsSpace, Words, UnitsOfRows, Label, Sentences;
    StripTight(raw);
    SentenceRowsVisible(raw, start, 0);
    RowsArePlain(SentenceRows(raw, start, Sentences(raw, 0)), heading, maxWords);
  }

  /** Each unit is under the last heading up to it, or under `heading` if there is none. */
  ghost predicate UnderHeadings(units: seq<Unit>, heading: string) {
    forall k :: 0 <= k < |units| ==>
      units[k].heading == if units[k].isHeading then Label(units[k].text) else LastHeading(units[..k], heading)
  }

  ghost function LastHeading(units: seq<Unit>, heading: string): string {
    if units == [] then heading else units[|units| - 1].heading
  }

  lemma UnderHeadingsConcat(a: seq<Unit>, b: seq<Unit>, heading: string)
    requires UnderHeadings(a, heading) && UnderHeadings(b, LastHeading(a, heading))
    ensures UnderHeadings(a + b, heading)
  {
    hide Label;
    var all := a + b;
    forall k | 0 <= k < |all|
      ensures all[k].heading == if all[k].isHeading then Label(all[k].text) else LastHeading(all[..k], heading)
    {
      if k < |a| {
        assert all[..k] == a[..k];
      } else {
        assert all[k] == b[k - |a|] && all[..k] == a + b[..k - |a|];
      }
    }
  }

  lemma PlainIsUnder(units: seq<Unit>, heading: string)
    requires Plain(units, heading)
    ensures UnderHeadings(units, heading) && LastHeading(units, heading) == heading
  {
    assert forall k :: 0 <= k < |units| ==> units[k] in units;
  }

  /** In a whole text each unit is under the last heading before it. */
  lemma {:induction false} HeadingsCarry(text: string, i: nat, heading: string, maxWords: nat, isUpper: string -> bool)
    requires i <= |text| && maxWords >= 1
    ensures UnderHeadings(Units(text, i, heading, maxWords, isUpper), heading)
    decreases |text| - i
  {
    hide IsSpace, ParagraphEnd, Trim, ParagraphUnits, HeadingAfter, Label, UnderHeadings;
    if i == |text| {
      PlainIsUnder([], heading);
    } else if text[i] == '\n' {
      HeadingsCarry(text, i + 1, heading, maxWords, isUpper);
    } else {
      var j := ParagraphEnd(text, i);
      var trimmed := Trim(text, i, j);
      var raw := text[trimmed.start..trimmed.end];
      var first, after := ParagraphUnits(raw, trimmed.start, heading, maxWords, isUpper), HeadingAfter(raw, heading, isUpper);
      ParagraphUnder(raw, trimmed.start, heading, maxWords, isUpper);
      HeadingsCarry(text, j, after, maxWords, isUpper);
      UnderHeadingsConcat(first, Units(text, j, after, maxWords, isUpper), heading);
    }
  }

  lemma ParagraphUnder(raw: string, start: nat, heading: string, maxWords: nat, isUpper: string -> bool)
    requires maxWords >= 1 && (raw == "" || VisibleEnds(raw))
    ensures var units := ParagraphUnits(raw, start, heading, maxWords, isUpper);
            UnderHeadings(units, heading) && LastHeading(units, heading) == HeadingAfter(raw, heading, isUpper)
  {
    hide IsSpace, Words, Label, IsHeading, UnitsOfRows, Sentences;
    if raw == "" {
      PlainIsUnder([], heading);
    } else {
      ParagraphIsHeadingIff(raw, start, heading, maxWords, isUpper);
      var units := ParagraphUnits(raw, start, heading, maxWords, isUpper);
      if Plain(units, heading) { PlainIsUnder(units, heading); }
    }
  }

  // ----- Where units are cut

  /** A sentence of the paragraph that ends at `to`: it ends with the paragraph or where a sentence ends. */
  ghost predicate RowCut(text: string, row: Sentence, to: nat) {
    && row.start < row.end <= to <= |text| && row.value == text[row.start..row.end]
    && (row.end == to || EndsSentence(text, row.end))
    && forall m :: row.start < m < row.end ==> !EndsSentence(text, m)
  }

  /** A unit of that paragraph: a heading is all of it, anything else a sentence or a group of `maxWords` words of one. */
  ghost predicate UnitCut(text: string, u: Unit, to: nat, maxWords: nat) {
    && u.start < u.end <= to <= |text|
    && (u.end == to || (!u.isHeading && (EndsSentence(text, u.end) || WordCount(u.text) == maxWords)))
    && (u.isHeading || forall m :: u.start < m < u.end ==> !EndsSentence(text, m))
  }

  lemma RowsCut(text: string, a: nat, b: nat, k: nat)
    requires a < b <= |text| && VisibleEnds(text[a..b]) && k < |Sentences(text[a..b], 0)|
    ensures RowCut(text, SentenceRows(text[a..b], a, Sentences(text[a..b], 0))[k], b)
  {
    hide IsSpace, RowCut, EndsSentence, VisibleEnds, AllSpace;
    SentencesEndWell(text[a..b], 0, k);
    SpanCut(text, a, b, Sentences(text[a..b], 0)[k]);
  }

  lemma SpanCut(text: string, a: nat, b: nat, span: Span)
    requires a < b <= |text| && span.start < span.end <= b - a && VisibleEnds(text[a..b])
    requires EndsSentence(text[a..b], span.end) || AllSpace(text[a..b], span.end, b - a)
    requires forall m :: span.start < m < span.end ==> !EndsSentence(text[a..b], m)
    ensures RowCut(text, Sentence(text[a..b][span.start..span.end], a + span.start, a + span.end), b)
  {
    hide IsSpace, EndsSentence, VisibleEnds, AllSpace;
    var raw := text[a..b];
    SliceOfSlice(text, a, b, span.start, span.end);
    forall m | a + span.start < m < a + span.end ensures !EndsSentence(text, m) {
      assert !EndsSentence(raw, m - a);
      EndsInside(text, a, b, m - a);
    }
    if span.end < |raw| {
      NotAllSpace(raw, span.end);
      EndsInside(text, a, b, span.end);
    }
  }

  lemma NotAllSpace(s: string, e: nat)
    requires VisibleEnds(s) && e < |s|
    ensures !AllSpace(s, e, |s|)
  {
    assert !IsSpace(s[|s| - 1]);
  }

  /** Inside a slice sentences end where they do in the whole. */
  lemma EndsInside(text: string, a: nat, b: nat, m: nat)
    requires a <= b <= |text| && m < b - a
    ensures EndsSentence(text[a..b], m) ==> EndsSentence(text, a + m)
    ensures 0 < m && EndsSentence(text, a + m) ==> EndsSentence(text[a..b], m)
  {
  }

  lemma PieceCut(text: string, row: Sentence, to: nat, heading: string, maxWords: nat, k: nat)
    requires RowCut(text, row, to) && VisibleEnds(row.value) && maxWords >= 1 && k < |SentencePieces(row.value, maxWords)|
    ensures var p := SentencePieces(row.value, maxWords)[k];
            && p.start < p.end <= |row.value|
            && UnitCut(text, Unit(row.value[p.start..p.end], row.start + p.start, row.start + p.end, heading, false),
                       to, maxWords)
  {
    hide IsSpace, Tiles, Words, Pieces, EndsSentence;
    var ps := SentencePieces(row.value, maxWords);
    SentencePiecesTile(row.value, maxWords);
    TileAt(row.value, ps, 0, |row.value|, k);
    if k == |ps| - 1 {
      TilesEnd(row.value, ps, 0, |row.value|);
      assert ps[k].end == |row.value| by { assert !IsSpace(row.value[|row.value| - 1]); }
    } else {
      assert Words(row.value, 0)[0..] == Words(row.value, 0);
      assert Groups(row.value, 0, maxWords) == ps;
      PiecesCount(row.value, 0, maxWords, k);
    }
  }

  lemma {:induction false} UnitsOfRowsCut(text: string, rows: seq<Sentence>, to: nat, heading: string, maxWords: nat)
    requires maxWords >= 1 && forall r :: r in rows ==> RowCut(text, r, to) && VisibleEnds(r.value)
    ensures forall u :: u in UnitsOfRows(rows, heading, maxWords) ==> UnitCut(text, u, to, maxWords)
    decreases |rows|
  {
    hide IsSpace, SentencePieces, UnitCut, RowCut, VisibleEnds;
    if rows != [] {
      assert rows[0] in rows;
      var value, spans := rows[0].value, SentencePieces(rows[0].value, maxWords);
      SentencePiecesTile(value, maxWords);
      var first := SentenceUnits(value, rows[0].start, heading, spans);
      forall u | u in first ensures UnitCut(text, u, to, maxWords) {
        var k :| 0 <= k < |first| && first[k] == u;
        PieceCut(text, rows[0], to, heading, maxWords, k);
      }
      UnitsOfRowsCut(text, rows[1..], to, heading, maxWords);
    }
  }

  lemma ParagraphCut(text: string, a: nat, b: nat, heading: string, maxWords: nat, isUpper: string -> bool)
    requires a < b <= |text| && VisibleEnds(text[a..b]) && maxWords >= 1
    ensures forall u :: u in ParagraphUnits(text[a..b], a, heading, maxWords, isUpper) ==> UnitCut(text, u, b, maxWords)
  {
    hide IsSpace, IsHeading, Label, Sentences, UnitsOfRows, SentenceRows, RowCut, VisibleEnds;
    var raw := text[a..b];
    if !IsHeading(raw, isUpper) {
      SentenceRowsVisible(raw, a, 0);
      var rows := SentenceRows(raw, a, Sentences(raw, 0));
      forall r | r in rows ensures RowCut(text, r, b) {
        var k :| 0 <= k < |rows| && rows[k] == r;
        RowsCut(text, a, b, k);
      }
      UnitsOfRowsCut(text, rows, b, heading, maxWords);
    }
  }

  /** From `e` on there are only spaces up to the end of the paragraph. */
  ghost predicate EndsParagraph(text: string, e: nat) {
    exists m :: e <= m <= |text| && AllSpace(text, e, m) && (m == |text| || Breaks(text, m))
  }

  /**
   * A unit ends with its paragraph, with a sentence, or after `maxWords` words, a heading with its paragraph; it never
   * goes over the end of a paragraph, and only a heading over the end of a sentence.
   */
  ghost predicate CutWell(text: string, u: Unit, maxWords: nat) {
    && u.start < u.end <= |text|
    && (EndsParagraph(text, u.end) || (!u.isHeading && (EndsSentence(text, u.end) || WordCount(u.text) == maxWords)))
    && (forall k :: u.start <= k < u.end ==> !Breaks(text, k))
    && (u.isHeading || forall m :: u.start < m < u.end ==> !EndsSentence(text, m))
  }

  lemma {:induction false} UnitsAreCutWell(text: string, i: nat, heading: string, maxWords: nat, isUpper: string -> bool)
    requires i <= |text| && maxWords >= 1
    ensures forall u :: u in Units(text, i, heading, maxWords, isUpper) ==> CutWell(text, u, maxWords)
    decreases |text| - i
  {
    hide IsSpace, ParagraphEnd, Trim, ParagraphUnits, HeadingAfter, CutWell;
    if i < |text| {
      if text[i] == '\n' {
        UnitsAreCutWell(text, i + 1, heading, maxWords, isUpper);
      } else {
        var j := ParagraphEnd(text, i);
        var trimmed := Trim(text, i, j);
        var raw := text[trimmed.start..trimmed.end];
        UnitsAreCutWell(text, j, HeadingAfter(raw, heading, isUpper), maxWords, isUpper);
        forall u | u in ParagraphUnits(raw, trimmed.start, heading, maxWords, isUpper) ensures CutWell(text, u, maxWords) {
          ParagraphCutWell(text, i, heading, maxWords, isUpper, u);
        }
      }
    }
  }

  lemma ParagraphCutWell(text: string, i: nat, heading: string, maxWords: nat, isUpper: string -> bool, u: Unit)
    requires i < |text| && text[i] != '\n' && maxWords >= 1
    requires var trimmed := Trim(text, i, ParagraphEnd(text, i));
             u in ParagraphUnits(text[trimmed.start..trimmed.end], trimmed.start, heading, maxWords, isUpper)
    ensures CutWell(text, u, maxWords)
  {
    var j := ParagraphEnd(text, i);
    var trimmed := Trim(text, i, j);
    var raw := text[trimmed.start..trimmed.end];
    var units := ParagraphUnits(raw, trimmed.start, heading, maxWords, isUpper);
    hide *;
    RawVisible(text, i, j);
    NoUnits(heading, trimmed.start, maxWords, isUpper);
    ParagraphEndIs(text, i);
    ParagraphUnitsTile(text, i, j, heading, maxWords, isUpper);
    UnitsWithin(text, units, maxWords, i, j, u);
    ParagraphCut(text, trimmed.start, trimmed.end, heading, maxWords, isUpper);
    CutInParagraph(text, i, trimmed.end, j, u, maxWords);
  }

  lemma RawVisible(text: string, i: nat, j: nat)
    requires i <= j <= |text|
    ensures var trimmed := Trim(text, i, j);
            var raw := text[trimmed.start..trimmed.end];
            (raw == "" || (trimmed.start < trimmed.end && VisibleEnds(raw))) && AllSpace(text, trimmed.end, j)
  {
    hide IsSpace;
  }

  lemma NoUnits(heading: string, start: nat, maxWords: nat, isUpper: string -> bool)
    requires maxWords >= 1
    ensures ParagraphUnits("", start, heading, maxWords, isUpper) == []
  {
  }

  lemma CutInParagraph(text: string, i: nat, to: nat, j: nat, u: Unit, maxWords: nat)
    requires i <= u.start && to <= j <= |text| && UnitCut(text, u, to, maxWords) && AllSpace(text, to, j)
    requires (j < |text| ==> Breaks(text, j)) && forall k :: i <= k < j ==> !Breaks(text, k)
    ensures CutWell(text, u, maxWords)
  {
    hide IsSpace, Breaks, EndsSentence, AllSpace, EndsParagraph, Words;
    ParagraphTail(text, to, j);
  }

  lemma ParagraphTail(text: string, e: nat, j: nat)
    requires e <= j <= |text| && AllSpace(text, e, j) && (j < |text| ==> Breaks(text, j))
    ensures EndsParagraph(text, e)
  {
  }

  lemma UnitsWithin(text: string, units: seq<Unit>, maxWords: nat, lo: nat, hi: nat, u: Unit)
    requires UnitsTile(text, units, maxWords, lo, hi) && u in units
    ensures lo <= u.start < u.end <= hi
  {
    hide Tiles, IsSpace;
    var k :| 0 <= k < |units| && units[k] == u;
    TileAt(text, UnitSpans(units), lo, hi, k);
  }

  lemma BreakThenRest(text: string, i: nat, rest: seq<Unit>, maxWords: nat)
    requires i < |text| && text[i] == '\n' && UnitsTile(text, rest, maxWords, i + 1, |text|)
    ensures UnitsTile(text, rest, maxWords, i, |text|)
  {
    assert IsSpace('\n');
    hide UnitsTile;
    NoUnitsTile(text, i, i + 1, maxWords);
    UnitsTileConcat(text, [], rest, maxWords, i, i + 1, |text|);
    assert [] + rest == rest;
  }

  lemma NoUnitsTile(text: string, lo: nat, hi: nat, maxWords: nat)
    requires lo <= hi <= |text| && AllSpace(text, lo, hi)
    ensures UnitsTile(text, [], maxWords, lo, hi)
  {
    assert UnitSpans([]) == [];
  }

  lemma UnitsTileWiden(text: string, units: seq<Unit>, maxWords: nat, lo: nat, lo': nat, hi': nat, hi: nat)
    requires lo <= lo' <= hi' <= hi <= |text| && AllSpace(text, lo, lo') && AllSpace(text, hi', hi)
    requires UnitsTile(text, units, maxWords, lo', hi')
    ensures UnitsTile(text, units, maxWords, lo, hi)
  {
    TilesWiden(text, UnitSpans(units), lo, lo', hi', hi);
  }

  lemma HeadingTiles(text: string, i: nat, j: nat, trimmed: Span, title: string, maxWords: nat,
                     isUpper: string -> bool)
    requires i <= j <= |text| && trimmed == Trim(text, i, j) && trimmed.start < trimmed.end
    requires IsHeading(text[trimmed.start..trimmed.end], isUpper)
    ensures var raw := text[trimmed.start..trimmed.end];
            UnitsTile(text, [Unit(raw, trimmed.start, trimmed.start + |raw|, title, true)], maxWords, i, j)
  {
    hide IsSpace, Words;
    var raw := text[trimmed.start..trimmed.end];
    var unit := Unit(raw, trimmed.start, trimmed.end, title, true);
    StripTight(raw);
    assert UnitOk(text, unit, maxWords);
    assert UnitSpans([unit]) == [trimmed];
    assert Tiles(text, [trimmed], i, j);
  }

  // ----- The loops that build the units

  /** Trimming a slice and trimming inside the whole find the same place. */
  lemma TrimOfSlice(s: string, i: nat, j: nat)
    requires i <= j <= |s|
    ensures var part, whole := Trim(s[i..j], 0, j - i), Trim(s, i, j);
            whole == Span(i + part.start, i + part.end)
    ensures TrimLeft(s, i, j) == i + TrimLeft(s[i..j], 0, j - i)
  {
    hide IsSpace;
    TrimLeftOfSlice(s, i, j, i);
    TrimRightOfSlice(s, i, j, TrimLeft(s, i, j), j);
  }

  lemma {:induction false} TrimLeftOfSlice(s: string, i: nat, j: nat, p: nat)
    requires i <= p <= j <= |s|
    ensures TrimLeft(s, p, j) == i + TrimLeft(s[i..j], p - i, j - i)
    decreases j - p
  {
    hide IsSpace;
    if p < j && IsSpace(s[p]) { TrimLeftOfSlice(s, i, j, p + 1); }
  }

  lemma {:induction false} TrimRightOfSlice(s: string, i: nat, j: nat, lo: nat, p: nat)
    requires i <= lo <= p <= j <= |s|
    ensures TrimRight(s, lo, p) == i + TrimRight(s[i..j], lo - i, p - i)
    decreases p
  {
    hide IsSpace;
    if lo < p && IsSpace(s[p - 1]) { TrimRightOfSlice(s, i, j, lo, p - 1); }
  }

  function LeftStrip(s: string): string {
    s[TrimLeft(s, 0, |s|)..]
  }

  /** What stripping a slice yields, and where that starts: the arithmetic on lengths that the chunker does. */
  lemma StripOfSlice(s: string, i: nat, j: nat)
    requires i <= j <= |s|
    ensures var trimmed := Trim(s, i, j);
            && Strip(s[i..j]) == s[trimmed.start..trimmed.end]
            && i + (j - i) - |LeftStrip(s[i..j])| == trimmed.start
  {
    hide IsSpace, TrimLeft, TrimRight;
    TrimOfSlice(s, i, j);
    var part := Trim(s[i..j], 0, j - i);
    SliceOfSlice(s, i, j, part.start, part.end);
  }

  lemma SentencesStep(text: string, offset: nat, i: nat)
    requires i < |text|
    ensures var j := SentenceEnd(text, i);
            var trimmed := Trim(text, i, j);
            var first := if trimmed.start == trimmed.end then [] else
                [Sentence(text[trimmed.start..trimmed.end], offset + trimmed.start, offset + trimmed.end)];
            SentenceRows(text, offset, Sentences(text, i)) == first + SentenceRows(text, offset, Sentences(text, j))
  {
    hide IsSpace, Trim, SentenceEnd, SentenceRows, Within;
    var j := SentenceEnd(text, i);
    var trimmed := Trim(text, i, j);
    var first := if trimmed.start < trimmed.end then [trimmed] else [];
    assert Sentences(text, i) == first + Sentences(text, j);
    SentenceRowsConcat(text, offset, first, Sentences(text, j));
    if trimmed.start == trimmed.end { NoSentenceRows(text, offset); } else { OneSentenceRow(text, offset, trimmed); }
  }

  lemma NoSentenceRows(raw: string, offset: nat)
    ensures SentenceRows(raw, offset, []) == []
  {
  }

  lemma OneSentenceRow(raw: string, offset: nat, p: Span)
    requires p.start <= p.end <= |raw|
    ensures SentenceRows(raw, offset, [p]) == [Sentence(raw[p.start..p.end], offset + p.start, offset + p.end)]
  {
  }

  lemma SentenceRowsConcat(raw: string, offset: nat, a: seq<Span>, b: seq<Span>)
    requires Within(a, |raw|) && Within(b, |raw|)
    ensures Within(a + b, |raw|)
    ensures SentenceRows(raw, offset, a + b) == SentenceRows(raw, offset, a) + SentenceRows(raw, offset, b)
  {
  }

  /** One match of the sentence expression: appends it, trimmed, unless it is blank. */
  method AppendMatch(rows: seq<Sentence>, text: string, offset: nat, i: nat)
    returns (more: seq<Sentence>, j: nat)
    requires i < |text|
    ensures i < j <= |text|
    ensures more + SentenceRows(text, offset, Sentences(text, j)) == rows + SentenceRows(text, offset, Sentences(text, i))
  {
    hide IsSpace, SentenceRows, Sentences, Trim, SentenceEnd, Strip, LeftStrip;
    j := SentenceEnd(text, i);
    var group := text[i..j];
    var value := Strip(group);
    StripOfSlice(text, i, j);
    SentencesStep(text, offset, i);
    more := rows;
    if value != "" {
      var left := i + |group| - |LeftStrip(group)|;
      more := rows + [Sentence(value, offset + left, offset + left + |value|)];
    }
  }

  /** `_sentences` */
  method FindSentences(text: string, offset: nat) returns (result: seq<Sentence>)
    ensures result == SentenceRows(text, offset, Sentences(text, 0))
  {
    NoSentenceRows(text, offset);
    hide IsSpace, SentenceRows, Trim, SentenceEnd;
    result := [];
    var i := 0;
    while i < |text|
      invariant i <= |text|
      invariant result + SentenceRows(text, offset, Sentences(text, i)) == SentenceRows(text, offset, Sentences(text, 0))
    {
      result, i := AppendMatch(result, text, offset, i);
    }
  }

  lemma SentenceUnitsStep(sentence: string, a: nat, heading: string, p: Span, rest: seq<Span>)
    requires Within([p] + rest, |sentence|)
    ensures Within(rest, |sentence|)
    ensures p.start <= p.end <= |sentence|
    ensures SentenceUnits(sentence, a, heading, [p] + rest) ==
            [Unit(sentence[p.start..p.end], a + p.start, a + p.end, heading, false)]
            + SentenceUnits(sentence, a, heading, rest)
  {
    assert ([p] + rest)[0] == p;
    assert forall k :: 0 <= k < |rest| ==> ([p] + rest)[k + 1] == rest[k];
  }

  method AppendPiece(units: seq<Unit>, row: Sentence, heading: string, spans: seq<Span>, i: nat, maxWords: nat)
    returns (more: seq<Unit>, next: nat)
    requires maxWords >= 1 && i < |spans| && Within(Pieces(spans[i..], maxWords), |row.value|)
    ensures i < next <= |spans| && Within(Pieces(spans[next..], maxWords), |row.value|)
    ensures more + SentenceUnits(row.value, row.start, heading, Pieces(spans[next..], maxWords))
            == units + SentenceUnits(row.value, row.start, heading, Pieces(spans[i..], maxWords))
  {
    hide IsSpace, SentenceUnits, Pieces, Within;
    next := Min(i + maxWords, |spans|);
    var group := spans[i..next];
    var x, y := group[0].start, group[|group| - 1].end;
    PiecesStep(spans, i, maxWords);
    SentenceUnitsStep(row.value, row.start, heading, Span(x, y), Pieces(spans[next..], maxWords));
    more := units + [Unit(row.value[x..y], row.start + x, row.start + y, heading, false)];
  }

  /** Appends the word groups of a sentence that is longer than a chunk may be. */
  method AppendPieces(units: seq<Unit>, row: Sentence, heading: string, maxWords: nat) returns (more: seq<Unit>)
    requires maxWords >= 1
    requires Within(Pieces(Words(row.value, 0), maxWords), |row.value|)
    ensures more == units + SentenceUnits(row.value, row.start, heading, Pieces(Words(row.value, 0), maxWords))
  {
    assert SentenceUnits(row.value, row.start, heading, []) == [] && Pieces([], maxWords) == [];
    hide IsSpace, Words, SentenceUnits, Pieces, Within, Min;
    more := units;
    var spans := Words(row.value, 0);
    var i := 0;
    assert spans[0..] == spans;
    while i < |spans|
      invariant i <= |spans|
      invariant Within(Pieces(spans[i..], maxWords), |row.value|)
      invariant more + SentenceUnits(row.value, row.start, heading, Pieces(spans[i..], maxWords))
                == units + SentenceUnits(row.value, row.start, heading, Pieces(spans, maxWords))
    {
      more, i := AppendPiece(more, row, heading, spans, i, maxWords);
    }
    assert spans[|spans|..] == [];
  }

  /** Appends one sentence, cut at word boundaries if it is longer than a chunk may be. */
  method AppendSentence(units: seq<Unit>, row: Sentence, heading: string, maxWords: nat) returns (more: seq<Unit>)
    requires maxWords >= 1 && VisibleEnds(row.value) && row.end == row.start + |row.value|
    ensures more == units + UnitsOfRows([row], heading, maxWords)
  {
    hide IsSpace, Words, VisibleEnds, Tiles;
    SentencePiecesTile(row.value, maxWords);
    ghost var pieces := SentencePieces(row.value, maxWords);
    assert UnitsOfRows([row], heading, maxWords) == SentenceUnits(row.value, row.start, heading, pieces);
    if WordCount(row.value) <= maxWords {
      assert row.value[0..|row.value|] == row.value;
      more := units + [Unit(row.value, row.start, row.end, heading, false)];
    } else {
      more := AppendPieces(units, row, heading, maxWords);
    }
  }

  lemma UnitsOfRowsStep(rows: seq<Sentence>, heading: string, maxWords: nat)
    requires maxWords >= 1 && rows != [] && forall r :: r in rows ==> VisibleEnds(r.value)
    ensures VisibleEnds(rows[0].value)
    ensures UnitsOfRows(rows, heading, maxWords)
            == UnitsOfRows([rows[0]], heading, maxWords) + UnitsOfRows(rows[1..], heading, maxWords)
  {
    hide SentenceUnits, SentencePieces, IsSpace;
    assert rows[0] in rows;
    assert [rows[0]][1..] == [];
  }

  method AppendSentences(units: seq<Unit>, rows: seq<Sentence>, heading: string, maxWords: nat)
    returns (more: seq<Unit>)
    requires maxWords >= 1
    requires forall r :: r in rows ==> VisibleEnds(r.value) && r.end == r.start + |r.value|
    ensures more == units + UnitsOfRows(rows, heading, maxWords)
  {
    assert UnitsOfRows([], heading, maxWords) == [];
    hide IsSpace, VisibleEnds, UnitsOfRows;
    more := units;
    assert rows[0..] == rows;
    for k := 0 to |rows|
      invariant more + UnitsOfRows(rows[k..], heading, maxWords) == units + UnitsOfRows(rows, heading, maxWords)
    {
      UnitsOfRowsStep(rows[k..], heading, maxWords);
      assert rows[k..][1..] == rows[k + 1..];
      assert rows[k] in rows;
      more := AppendSentence(more, rows[k], heading, maxWords);
    }
  }

  /** The units one paragraph adds. */
  method AppendParagraph(units: seq<Unit>, raw: string, start: nat, heading: string, maxWords: nat,
                         isUpper: string -> bool) returns (more: seq<Unit>, after: string)
    requires maxWords >= 1
    ensures more == units + ParagraphUnits(raw, start, heading, maxWords, isUpper)
    ensures after == HeadingAfter(raw, heading, isUpper)
  {
    hide IsSpace, UnitsOfRows, IsHeading, Label, Sentences, VisibleEnds;
    more, after := units, heading;
    if raw != "" {
      if IsHeading(raw, isUpper) {
        after := Label(raw);
        more := units + [Unit(raw, start, start + |raw|, after, true)];
      } else {
        var rows := FindSentences(raw, start);
        SentenceRowsVisible(raw, start, 0);
        more := AppendSentences(units, rows, heading, maxWords);
      }
    }
  }

  /** The first loop of `chunk_text`. */
  method BuildUnits(text: string, maxWords: nat, isUpper: string -> bool) returns (units: seq<Unit>)
    requires maxWords >= 1
    ensures units == Units(text, 0, "", maxWords, isUpper)
  {
    hide IsSpace, ParagraphUnits, HeadingAfter, Strip, LeftStrip, Trim, ParagraphEnd;
    units := [];
    var heading := "";
    var i := 0;
    while i < |text|
      invariant i <= |text|
      invariant units + Units(text, i, heading, maxWords, isUpper) == Units(text, 0, "", maxWords, isUpper)
    {
      if text[i] == '\n' {
        i := i + 1;
      } else {
        var j := ParagraphEnd(text, i);
        var group := text[i..j];
        var raw := Strip(group);
        StripOfSlice(text, i, j);
        var start := i + |group| - |LeftStrip(group)|;
        units, heading := AppendParagraph(units, raw, start, heading, maxWords, isUpper);
        i := j;
      }
    }
  }
}
