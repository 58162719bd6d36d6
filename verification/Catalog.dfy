/**
 * The catalog: documents, their chunks, and the full-text and vector rows that triggers and explicit
 * statements keep beside the chunks.  Tables are maps from row ids; each SQL statement is a function on
 * the tables, cascades and triggers included, and a savepoint is a copy of the tables to go back to.
 */
module Catalog {
  import opened Wrappers
  import opened Chunker
  import opened Embedding

  datatype Document = Document(
    source: nat, path: string, key: string, extension: string, size: int, mtime: int, digest: string,
    title: string, filename: string, mode: Mode)

  datatype ChunkRow = ChunkRow(document: nat, no: nat, chunk: Chunk)

  datatype FtsRow = FtsRow(text: string, title: string, filename: string, heading: string)

  datatype Tables = Tables(
    sources: set<nat>, documents: map<nat, Document>, chunks: map<nat, ChunkRow>,
    fts: map<nat, FtsRow>, vectors: map<nat, Vector>)

  // ----- What must agree

  /** The three chunk tables hold the same ids and every chunk and document has its parent row. */
  ghost predicate Agree(t: Tables) {
    && t.chunks.Keys == t.fts.Keys == t.vectors.Keys
    && (forall c :: c in t.chunks ==> t.chunks[c].document in t.documents)
    && (forall d :: d in t.documents ==> t.documents[d].source in t.sources)
  }

  /** No two documents share a path key. */
  ghost predicate UniqueKeys(t: Tables) {
    forall d, d' :: d in t.documents && d' in t.documents && t.documents[d].key == t.documents[d'].key ==> d == d'
  }

  ghost predicate IsChunk(t: Tables, c: nat, d: nat, no: nat) {
    c in t.chunks && t.chunks[c].document == d && t.chunks[c].no == no
  }

  ghost predicate HasNo(t: Tables, d: nat, no: nat) {
    exists c: nat :: IsChunk(t, c, d, no)
  }

  /** The chunks of document `d` are numbered 0 up to, not including, `n`, each number once. */
  ghost predicate NumberedTo(t: Tables, d: nat, n: nat) {
    && (forall c: nat, c': nat, no: nat :: IsChunk(t, c, d, no) && IsChunk(t, c', d, no) ==> c == c')
    && (forall no: nat :: HasNo(t, d, no) <==> no < n)
  }

  ghost predicate Numbered(t: Tables) {
    forall d: nat :: IsNumbered(t, d)
  }

  ghost predicate IsNumbered(t: Tables, d: nat) {
    exists n: nat :: NumberedTo(t, d, n)
  }

  ghost predicate Sound(t: Tables) {
    Agree(t) && UniqueKeys(t) && Numbered(t)
  }

  // ----- Statements

  /** `SELECT * FROM documents WHERE path_key=?` */
  function KeyOwner(t: Tables, key: string): (d: Option<nat>)
    requires UniqueKeys(t)
    ensures d.Some? ==> d.value in t.documents && t.documents[d.value].key == key
    ensures d.None? ==> forall x :: x in t.documents ==> t.documents[x].key != key
  {
    if exists d :: d in t.documents && t.documents[d].key == key then
      var d :| d in t.documents && t.documents[d].key == key;
      Some(d)
    else None
  }

  function ChunkIds(t: Tables, d: nat): set<nat> {
    set c | c in t.chunks && t.chunks[c].document == d
  }

  /** `DELETE FROM chunks WHERE document_id=?` with its two delete triggers. */
  function DropChunks(t: Tables, d: nat): Tables {
    var ids := ChunkIds(t, d);
    t.(chunks := t.chunks - ids, fts := t.fts - ids, vectors := t.vectors - ids)
  }

  /** `UPDATE documents SET ... WHERE id=?`, which leaves the path key alone and may find no row. */
  function SetDocument(t: Tables, d: nat, doc: Document): Tables {
    if d in t.documents then t.(documents := t.documents[d := doc.(key := t.documents[d].key)]) else t
  }

  function AddDocument(t: Tables, d: nat, doc: Document): Tables {
    t.(documents := t.documents[d := doc])
  }

  /** `DELETE FROM documents WHERE id=?`, cascading to the chunks and so to their triggers. */
  function DropDocument(t: Tables, d: nat): Tables {
    DropChunks(t, d).(documents := t.documents - {d})
  }

  /** `INSERT INTO chunks` with its insert trigger. */
  function AddChunk(t: Tables, c: nat, row: ChunkRow): Tables {
    t.(chunks := t.chunks[c := row], fts := t.fts[c := FtsRow(row.chunk.text, "", "", row.chunk.heading)])
  }

  function SetFts(t: Tables, c: nat, row: FtsRow): Tables {
    t.(fts := t.fts[c := row])
  }

  /** `upsert` */
  function SetVector(t: Tables, c: nat, v: Vector): Tables {
    t.(vectors := (t.vectors - {c})[c := v])
  }

  /** `DELETE FROM sources WHERE id=?`, cascading to documents, chunks and triggers. */
  function DropSource(t: Tables, s: nat): Tables {
    var docs := set d | d in t.documents && t.documents[d].source == s;
    var ids := set c | c in t.chunks && t.chunks[c].document in docs;
    Tables(t.sources - {s}, t.documents - docs, t.chunks - ids, t.fts - ids, t.vectors - ids)
  }

  // ----- Deletions keep the tables in agreement

  /** Taking away all chunks of some documents keeps the numbering of the others. */
  lemma NumberingAfterDrop(t: Tables, t': Tables, gone: set<nat>)
    requires Numbered(t)
    requires forall c: nat :: c in t'.chunks <==> c in t.chunks && t.chunks[c].document !in gone
    requires forall c :: c in t'.chunks ==> t'.chunks[c] == t.chunks[c]
    ensures Numbered(t')
    ensures forall d: nat :: d in gone ==> NumberedTo(t', d, 0)
  {
    forall d: nat ensures IsNumbered(t', d) && (d in gone ==> NumberedTo(t', d, 0)) {
      assert IsNumbered(t, d);
      var n: nat :| NumberedTo(t, d, n);
      forall c: nat, no: nat ensures IsChunk(t', c, d, no) <==> d !in gone && IsChunk(t, c, d, no) { }
      forall no: nat ensures HasNo(t', d, no) <==> d !in gone && HasNo(t, d, no) {
        if d !in gone && HasNo(t, d, no) {
          var c: nat :| IsChunk(t, c, d, no);
          assert IsChunk(t', c, d, no);
        }
        if HasNo(t', d, no) {
          var c: nat :| IsChunk(t', c, d, no);
          assert IsChunk(t, c, d, no);
        }
      }
      assert NumberedTo(t', d, if d in gone then 0 else n);
    }
  }

  lemma DropChunksSound(t: Tables, d: nat)
    requires Sound(t)
    ensures Sound(DropChunks(t, d)) && NumberedTo(DropChunks(t, d), d, 0)
  {
    hide Numbered, NumberedTo;
    NumberingAfterDrop(t, DropChunks(t, d), {d});
  }

  lemma DropDocumentSound(t: Tables, d: nat)
    requires Sound(t)
    ensures Sound(DropDocument(t, d))
  {
    hide Numbered, NumberedTo;
    NumberingAfterDrop(t, DropDocument(t, d), {d});
  }

  /** Removing a source removes its documents and everything under them, and nothing else. */
  lemma DropSourceSound(t: Tables, s: nat)
    requires Sound(t)
    ensures Sound(DropSource(t, s))
    ensures forall d :: d in DropSource(t, s).documents <==> d in t.documents && t.documents[d].source != s
    ensures forall c :: c in DropSource(t, s).chunks <==>
              c in t.chunks && t.documents[t.chunks[c].document].source != s
  {
    hide Numbered, NumberedTo;
    var docs := set d | d in t.documents && t.documents[d].source == s;
    NumberingAfterDrop(t, DropSource(t, s), docs);
  }

  // ----- Writing one document

  /** The full-text row a chunk of `doc` ends up with. */
  function FtsOf(doc: Document, chunk: Chunk): FtsRow {
    FtsRow(chunk.text, doc.title, doc.filename, chunk.heading)
  }

  /**
   * `t` is `base` with document `d` holding `doc` and the first `n` chunks, each with its own full-text row and
   * vector, and with every other document and its chunks as they were.
   */
  ghost predicate Written(base: Tables, t: Tables, d: nat, doc: Document, chunks: seq<Chunk>, vectors: seq<Vector>, n: nat)
    requires n <= |chunks| && n <= |vectors|
  {
    && t.sources == base.sources
    && t.documents == base.documents[d := doc]
    && t.chunks.Keys == t.fts.Keys == t.vectors.Keys
    && OthersKept(base, t, d)
    && (forall c :: c in t.chunks && t.chunks[c].document == d ==> OwnRow(t, c, doc, chunks[..n], vectors[..n]))
    && NumberedTo(t, d, n)
  }

  /** The chunks of the other documents are the same rows, with the same full-text rows and vectors. */
  ghost predicate OthersKept(base: Tables, t: Tables, d: nat) {
    && (forall c :: c in t.chunks && t.chunks[c].document != d ==>
          && c in base.chunks && c in base.fts && c in base.vectors && c in t.fts && c in t.vectors
          && t.chunks[c] == base.chunks[c] && t.fts[c] == base.fts[c] && t.vectors[c] == base.vectors[c])
    && (forall c :: c in base.chunks && base.chunks[c].document != d ==> c in t.chunks && t.chunks[c] == base.chunks[c])
  }

  /** A chunk row holds the chunk of its number, beside that chunk's full-text row and vector. */
  ghost predicate OwnRow(t: Tables, c: nat, doc: Document, chunks: seq<Chunk>, vectors: seq<Vector>) {
    && c in t.chunks && c in t.fts && c in t.vectors
    && t.chunks[c].no < |chunks| && t.chunks[c].no < |vectors|
    && t.chunks[c].chunk == chunks[t.chunks[c].no]
    && t.fts[c] == FtsOf(doc, chunks[t.chunks[c].no])
    && t.vectors[c] == vectors[t.chunks[c].no]
  }

  /** What one turn of the chunk loop does. */
  function WithChunk(t: Tables, c: nat, d: nat, doc: Document, no: nat, chunk: Chunk, v: Vector): Tables {
    SetVector(SetFts(AddChunk(t, c, ChunkRow(d, no, chunk)), c, FtsOf(doc, chunk)), c, v)
  }

  lemma NumberingAfterAdd(t: Tables, t': Tables, c: nat, row: ChunkRow, n: nat)
    requires NumberedTo(t, row.document, n) && row.no == n && c !in t.chunks
    requires t'.chunks == t.chunks[c := row]
    ensures NumberedTo(t', row.document, n + 1)
  {
    var d := row.document;
    forall x: nat, no: nat ensures IsChunk(t', x, d, no) <==> IsChunk(t, x, d, no) || (x == c && no == n) { }
    forall x: nat, x': nat, no: nat | IsChunk(t', x, d, no) && IsChunk(t', x', d, no) ensures x == x' {
      if no == n {
        assert !HasNo(t, d, n);
      }
    }
    forall no: nat ensures HasNo(t', d, no) <==> no < n + 1 {
      if no == n { assert IsChunk(t', c, d, no); }
      if no < n {
        assert HasNo(t, d, no);
        var x: nat :| IsChunk(t, x, d, no);
        assert IsChunk(t', x, d, no);
      }
      if HasNo(t', d, no) && no != n {
        var x: nat :| IsChunk(t', x, d, no);
        assert IsChunk(t, x, d, no) && HasNo(t, d, no);
      }
    }
  }

  lemma OthersKeptStep(base: Tables, t: Tables, t': Tables, d: nat, c: nat)
    requires OthersKept(base, t, d)
    requires c !in t.chunks && c in t'.chunks && t'.chunks[c].document == d
    requires forall x :: x != c ==> (x in t'.chunks <==> x in t.chunks)
    requires forall x :: x in t.chunks ==> t'.chunks[x] == t.chunks[x]
    requires forall x :: x in t.chunks && x in t.fts && x in t.vectors ==>
               x in t'.fts && x in t'.vectors && t'.fts[x] == t.fts[x] && t'.vectors[x] == t.vectors[x]
    ensures OthersKept(base, t', d)
  {
  }

  lemma OwnRowsStep(t: Tables, d: nat, doc: Document, chunks: seq<Chunk>, vectors: seq<Vector>, n: nat, c: nat, x: nat)
    requires n < |chunks| && n < |vectors| && c !in t.chunks
    requires x in t.chunks ==> x in t.fts && x in t.vectors
    requires x == c || (x in t.chunks && OwnRow(t, x, doc, chunks[..n], vectors[..n]))
    ensures OwnRow(WithChunk(t, c, d, doc, n, chunks[n], vectors[n]), x, doc, chunks[..n + 1], vectors[..n + 1])
  {
  }

  lemma WrittenStep(base: Tables, t: Tables, d: nat, doc: Document, chunks: seq<Chunk>, vectors: seq<Vector>, n: nat, c: nat)
    requires n < |chunks| && n < |vectors| && Written(base, t, d, doc, chunks, vectors, n)
    requires c !in t.chunks
    ensures Written(base, WithChunk(t, c, d, doc, n, chunks[n], vectors[n]), d, doc, chunks, vectors, n + 1)
  {
    hide NumberedTo, FtsOf, OthersKept, OwnRow;
    var t' := WithChunk(t, c, d, doc, n, chunks[n], vectors[n]);
    NumberingAfterAdd(t, t', c, ChunkRow(d, n, chunks[n]), n);
    OthersKeptStep(base, t, t', d, c);
    forall x | x in t'.chunks && t'.chunks[x].document == d
      ensures OwnRow(t', x, doc, chunks[..n + 1], vectors[..n + 1])
    {
      OwnRowsStep(t, d, doc, chunks, vectors, n, c, x);
    }
  }

  /** The next chunk number is free and the document is there. */
  lemma WrittenHasRoom(base: Tables, t: Tables, d: nat, doc: Document, chunks: seq<Chunk>, vectors: seq<Vector>, n: nat)
    requires n <= |chunks| && n <= |vectors| && Written(base, t, d, doc, chunks, vectors, n)
    ensures d in t.documents && t.sources == base.sources && !HasNo(t, d, n)
  {
  }

  /** Before the loop, with the old chunks gone, no chunk is written yet. */
  lemma WrittenStart(base: Tables, t: Tables, d: nat, doc: Document, chunks: seq<Chunk>, vectors: seq<Vector>)
    requires Sound(base)
    requires if d in base.documents then t == DropChunks(base, d).(documents := base.documents[d := doc])
             else t == AddDocument(base, d, doc)
    ensures Written(base, t, d, doc, chunks, vectors, 0)
  {
    hide Numbered, NumberedTo, IsNumbered, OwnRow, UniqueKeys, OthersKept;
    if d in base.documents {
      NumberingAfterDrop(base, t, {d});
      DroppedOnly(base, t, d, doc);
    } else {
      NumberingOfAbsent(base, t, d);
      AddedOnly(base, t, d, doc);
    }
  }

  lemma DroppedOnly(base: Tables, t: Tables, d: nat, doc: Document)
    requires Agree(base) && t == DropChunks(base, d).(documents := base.documents[d := doc])
    ensures OthersKept(base, t, d) && forall c :: c in t.chunks ==> t.chunks[c].document != d
  {
  }

  lemma AddedOnly(base: Tables, t: Tables, d: nat, doc: Document)
    requires Agree(base) && d !in base.documents && t == AddDocument(base, d, doc)
    ensures OthersKept(base, t, d) && forall c :: c in t.chunks ==> t.chunks[c].document != d
  {
  }

  lemma NumberingOfAbsent(base: Tables, t: Tables, d: nat)
    requires Agree(base) && d !in base.documents && t.chunks == base.chunks
    ensures NumberedTo(t, d, 0)
  {
    forall c: nat, no: nat ensures !IsChunk(t, c, d, no) { }
  }

  /** A written document leaves the catalog sound, provided its key belongs to no other document. */
  lemma WrittenSound(base: Tables, t: Tables, d: nat, doc: Document, chunks: seq<Chunk>, vectors: seq<Vector>, n: nat)
    requires Sound(base) && n <= |chunks| && n <= |vectors| && Written(base, t, d, doc, chunks, vectors, n)
    requires doc.source in base.sources
    requires forall x :: x in base.documents && base.documents[x].key == doc.key ==> x == d
    ensures Sound(t)
  {
    hide NumberedTo, FtsOf;
    forall x: nat ensures IsNumbered(t, x) {
      if x == d {
        assert NumberedTo(t, x, n);
      } else {
        assert IsNumbered(base, x);
        var m: nat :| NumberedTo(base, x, m);
        SameNumbering(base, t, x, m);
      }
    }
  }

  lemma SameNumbering(t: Tables, t': Tables, d: nat, n: nat)
    requires NumberedTo(t, d, n)
    requires forall c :: c in t.chunks && t.chunks[c].document == d ==> c in t'.chunks && t'.chunks[c] == t.chunks[c]
    requires forall c :: c in t'.chunks && t'.chunks[c].document == d ==> c in t.chunks && t'.chunks[c] == t.chunks[c]
    ensures NumberedTo(t', d, n)
  {
    forall c: nat, no: nat ensures IsChunk(t', c, d, no) <==> IsChunk(t, c, d, no) { }
    forall no: nat ensures HasNo(t', d, no) <==> HasNo(t, d, no) {
      if HasNo(t, d, no) {
        var c: nat :| IsChunk(t, c, d, no);
        assert IsChunk(t', c, d, no);
      }
      if HasNo(t', d, no) {
        var c: nat :| IsChunk(t', c, d, no);
        assert IsChunk(t, c, d, no);
      }
    }
  }
}
