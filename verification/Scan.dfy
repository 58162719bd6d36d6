/**
 * One scan of one source: every enumerated file is classified, compared with the catalog, read if it
 * changed, and written in batches; documents whose files are gone are deleted only when the enumeration
 * was complete.
 */
module Scan {
  import opened Basics
  import opened Wrappers
  import opened Chunker
  import opened Embedding
  import opened Accounting
  import opened Catalog
  import opened Writer

  /**
   * What the disk holds at one path.  `reachable` is whether `stat()` answers; `digest` and `content` are missing
   * when hashing or extracting raises; `office` files that fail are kept in the catalog as metadata only.
   * `extension` names the row of the coverage counters, `suffix` is stored.
   */
  datatype File = File(
    key: string, path: string, filename: string, extension: string, suffix: string, title: string, ignored: bool,
    mode: Mode, office: bool, reachable: bool, size: int, mtime: int, digest: Option<string>,
    content: Option<seq<Chunk>>, summary: string)

  ghost predicate DistinctFiles(files: seq<File>) {
    forall i, j :: 0 <= i < j < |files| && !files[i].ignored && !files[j].ignored ==> files[i].key != files[j].key
  }

  lemma DistinctPrefix(files: seq<File>, n: nat)
    requires n <= |files|
    ensures DistinctFiles(files) ==> DistinctFiles(files[..n])
  {
  }

  predicate AllReadable(files: seq<File>) {
    forall k :: 0 <= k < |files| ==> Readable(files[k])
  }

  /** The keys a scan sees. */
  ghost function SeenKeys(files: seq<File>): set<string> {
    set k | 0 <= k < |files| && !files[k].ignored :: files[k].key
  }

  /** Reading the file raises nothing. */
  predicate Readable(f: File) {
    f.ignored || (f.reachable && (f.mode == Metadata || (f.digest.Some? && f.content.Some?)))
  }

  ghost predicate FileSettled(t: Tables, f: File) {
    f.reachable && Settled(t, f.key, f.size, f.mtime, f.mode)
  }

  /** The text a file is indexed with: its own, or the summary of a file of which only the metadata are indexed. */
  predicate IsText(f: File, digest: string, chunks: seq<Chunk>) {
    match f.mode
    case Content => f.digest == Some(digest) && f.content == Some(chunks)
    case Metadata =>
      && digest == "" && |chunks| == 1
      && chunks[0].text == f.summary && chunks[0].heading == "File metadata" && chunks[0].page == None
      && chunks[0].charStart == 0 && chunks[0].charEnd == |f.summary|
  }

  /** The document was prepared from the file as it is on disk. */
  predicate Matches(item: Prepared, f: File) {
    && f.reachable && item.key == f.key && item.path == f.path && item.filename == f.filename && item.title == f.title
    && item.extension == f.extension && item.suffix == f.suffix
    && item.size == f.size && item.mtime == f.mtime && item.mode == f.mode
    && IsText(f, item.digest, item.chunks)
  }

  /** Every file of the disk is in the catalog as it is, and every document of the source is on the disk. */
  ghost predicate UpToDate(t: Tables, source: nat, files: seq<File>) {
    && (forall k :: 0 <= k < |files| && !files[k].ignored ==> FileSettled(t, files[k]))
    && (forall d :: d in t.documents && t.documents[d].source == source ==> t.documents[d].key in SeenKeys(files))
  }

  function MetadataChunks(f: File): seq<Chunk> {
    [Chunk(f.summary, None, 0, |f.summary|, "File metadata")]
  }

  function PreparedOf(f: File, previous: Option<nat>, digest: string, chunks: seq<Chunk>): Prepared {
    Prepared(f.key, f.path, f.filename, f.extension, f.suffix, f.size, f.mtime, digest, previous, f.title, chunks, f.mode)
  }

  /** What `stat` and `old` hold: the answers for the last file of this scan that could be reached. */
  datatype Answers = Answers(size: int, mtime: int, previous: Option<nat>)

  /** The row of a file that could not be read: discoverable by name, with no stale text behind it. */
  function FailedDocument(source: nat, f: File, stat: Answers, key: string, digest: string): Document {
    Document(source, f.path, key, f.suffix, stat.size, stat.mtime, digest, f.title, f.filename, Metadata)
  }

  /** The row of a file whose contents turned out to be the ones already indexed. */
  function Touched(doc: Document, source: nat, f: File): Document {
    doc.(source := source, path := f.path, size := f.size, mtime := f.mtime)
  }

  lemma RowEvolves(base: Tables, t: Tables, d: nat, doc: Document)
    requires t.sources == base.sources && t.documents == base.documents[d := doc]
    requires d in base.documents ==> base.documents[d].key == doc.key
    ensures DocumentsEvolved(base, t, {doc.key})
  {
  }

  lemma KeyIsOwn(t: Tables, d: nat, doc: Document)
    requires UniqueKeys(t)
    requires if d in t.documents then t.documents[d].key == doc.key else NoOwner(t, doc.key)
    ensures forall x :: x in t.documents && t.documents[x].key == doc.key ==> x == d
  {
  }

  /** A document row left without chunks, whether it was there before or is new. */
  lemma RowOnly(base: Tables, t: Tables, d: nat, doc: Document)
    requires Sound(base) && doc.source in base.sources
    requires if d in base.documents then base.documents[d].key == doc.key else NoOwner(base, doc.key)
    requires t == if d in base.documents then DropChunks(base, d).(documents := base.documents[d := doc])
                  else base.(documents := base.documents[d := doc])
    ensures Sound(t) && Written(base, t, d, doc, [], [], 0) && Evolved(base, t, {doc.key})
  {
    hide Numbered, UniqueKeys, NumberedTo, OthersKept, OwnRow, ChunksEvolved, DocumentsEvolved;
    WrittenStart(base, t, d, doc, [], []);
    WrittenKeepsChunks(base, t, d, doc);
    RowEvolves(base, t, d, doc);
    KeyIsOwn(base, d, doc);
    WrittenSound(base, t, d, doc, [], [], 0);
  }

  /** The row with the key, in a sound catalog. */
  function OwnerOf(t: Tables, key: string): (d: Option<nat>)
    requires Sound(t)
    ensures d.Some? ==> d.value in t.documents && t.documents[d.value].key == key
    ensures d.None? ==> NoOwner(t, key)
  {
    KeyOwner(t, key)
  }

  /** The key of the row that `_preserve_failed_document` writes: it never changes the key of a row it finds. */
  ghost function KeyWritten(t: Tables, f: File, stat: Answers): string
    requires stat.previous.Some? ==> stat.previous.value in t.documents
  {
    if stat.previous.Some? then t.documents[stat.previous.value].key else f.key
  }

  /** The file's row, without text, over the row `stat.previous` or as a new one. */
  ghost predicate Preserved(t: Tables, t': Tables, source: nat, f: File, stat: Answers)
    requires stat.previous.Some? ==> stat.previous.value in t.documents
  {
    exists d: nat ::
      && (if stat.previous.Some? then d == stat.previous.value else d !in t.documents && NoOwner(t, f.key))
      && Written(t, t', d, FailedDocument(source, f, stat, KeyWritten(t, f, stat),
                                          if d in t.documents then t.documents[d].digest else ""), [], [], 0)
  }

  /** `_preserve_failed_document`; an exception here ends the scan. */
  method PreserveFailed(con: Connection, source: nat, f: File, stat: Answers) returns (ok: bool)
    requires Sound(con.tables) && source in con.tables.sources
    requires stat.previous.Some? ==> stat.previous.value in con.tables.documents
    modifies con
    ensures Sound(con.tables) || !ok
    ensures ok ==> con.committed == con.tables && Preserved(old(con.tables), con.tables, source, f, stat)
    ensures ok ==> Evolved(old(con.tables), con.tables, {KeyWritten(old(con.tables), f, stat)})
    ensures ok && stat.previous.Some? ==> con.tables.documents.Keys == old(con.tables).documents.Keys
    ensures !ok ==> con.committed == old(con.committed)
    ensures !ok ==> !con.Faultless() || (stat.previous.None? && !NoOwner(old(con.tables), f.key))
  {
    hide Sound, Written, Evolved;
    ok := false;
    ghost var base := con.tables;
    match stat.previous {
      case Some(d) =>
        var dropped := con.Execute();
        if !dropped { return; }
        con.tables := DropChunks(con.tables, d);
        var updated := con.Execute();
        if !updated { return; }
        var was := con.tables.documents[d];
        con.tables := SetDocument(con.tables, d, FailedDocument(source, f, stat, was.key, was.digest));
        RowOnly(base, con.tables, d, con.tables.documents[d]);
      case None =>
        var inserted := con.Execute();
        if !inserted || OwnerOf(con.tables, f.key).Some? { return; }
        var d := NextRowId(con.tables.documents.Keys);
        var doc := FailedDocument(source, f, stat, f.key, "");
        con.tables := AddDocument(con.tables, d, doc);
        RowOnly(base, con.tables, d, doc);
    }
    con.Commit();
    ok := true;
  }

  /**
   * The file can be found by its name and not by its text: one row has the key, which bears the file's path, names and
   * suffix, has no chunks, and keeps the digest that was there.
   */
  ghost predicate NamedOnly(t: Tables, t': Tables, d: nat, source: nat, f: File, key: string, size: int, mtime: int) {
    && d in t'.documents && (forall x :: x in t.documents && t.documents[x].key == key ==> x == d)
    && var row := t'.documents[d];
       && row.source == source && row.key == key && row.path == f.path && row.extension == f.suffix
       && row.size == size && row.mtime == mtime && row.title == f.title && row.filename == f.filename && row.mode == Metadata
       && row.digest == (if d in t.documents then t.documents[d].digest else "")
       && (d in t.documents ==> t.documents[d].key == key)
       && forall c :: c in t'.chunks ==> t'.chunks[c].document != d
  }

  lemma PreservedIs(t: Tables, t': Tables, source: nat, f: File, stat: Answers) returns (d: nat)
    requires Sound(t) && (stat.previous.Some? ==> stat.previous.value in t.documents) && Preserved(t, t', source, f, stat)
    ensures NamedOnly(t, t', d, source, f, KeyWritten(t, f, stat), stat.size, stat.mtime)
    ensures stat.previous.Some? ==> d == stat.previous.value
  {
    hide OthersKept, NumberedTo, Numbered;
    d :| (if stat.previous.Some? then d == stat.previous.value else d !in t.documents && NoOwner(t, f.key))
      && Written(t, t', d, FailedDocument(source, f, stat, KeyWritten(t, f, stat),
                                          if d in t.documents then t.documents[d].digest else ""), [], [], 0);
    KeyIsOwn(t, d, t'.documents[d]);
  }

  /** What is left of a file that was reached and is recorded as failed: of an office file, its name. */
  ghost predicate LeftByName(t: Tables, t': Tables, source: nat, f: File) {
    if f.mode == Content && f.office then exists d :: NamedOnly(t, t', d, source, f, f.key, f.size, f.mtime)
    else t' == t
  }

  /** The file is neither in the catalog as it is on disk nor can it be read. */
  ghost predicate Unreadable(t: Tables, f: File) {
    && f.reachable && f.mode == Content && !FileSettled(t, f) && !HasDigest(t, f)
    && (f.digest.None? || f.content.None?)
  }

  /** Only its row is out of date. */
  ghost predicate OnlyTouched(t: Tables, f: File) {
    f.reachable && f.mode == Content && HasDigest(t, f) && !FileSettled(t, f)
  }

  /** The file has to be indexed: it is not in the catalog as it is on disk, and it can be read. */
  ghost predicate Changed(t: Tables, f: File) {
    && f.reachable && !FileSettled(t, f)
    && (f.mode == Content ==> f.digest.Some? && f.content.Some? && !HasDigest(t, f))
  }

  /** What a changed file is prepared as. */
  ghost function ItemOf(t: Tables, f: File): Prepared
    requires Sound(t) && Changed(t, f)
  {
    if f.mode == Metadata then PreparedOf(f, OwnerOf(t, f.key), "", MetadataChunks(f))
    else PreparedOf(f, OwnerOf(t, f.key), f.digest.value, f.content.value)
  }

  datatype Preparation = Kept | Ready(item: Prepared) | Broken

  /** The bytes of the file are the ones already indexed under its key. */
  ghost predicate HasDigest(t: Tables, f: File) {
    exists d :: d in t.documents && t.documents[d].key == f.key && t.documents[d].mode == f.mode
                && f.digest == Some(t.documents[d].digest)
  }

  /** Chunks, full-text rows and vectors are as they were. */
  ghost predicate TextKept(t: Tables, t': Tables) {
    t'.chunks == t.chunks && t'.fts == t.fts && t'.vectors == t.vectors
  }

  /** The row of a file whose bytes are the ones already indexed follows its source, path, size and time, and nothing else. */
  predicate RowFollows(row: Document, row': Document, source: nat, f: File) {
    && f.reachable && row.key == f.key && row.mode == f.mode && f.digest == Some(row.digest)
    && row'.source == source && row'.path == f.path && row'.size == f.size && row'.mtime == f.mtime
    && row'.key == row.key && row'.extension == row.extension && row'.digest == row.digest
    && row'.title == row.title && row'.filename == row.filename && row'.mode == row.mode
  }

  ghost predicate RowTouched(t: Tables, t': Tables, source: nat, f: File) {
    && t'.sources == t.sources && t'.documents.Keys == t.documents.Keys
    && (forall d :: d in t.documents && t.documents[d].key != f.key ==> t'.documents[d] == t.documents[d])
    && forall d :: d in t.documents && t.documents[d].key == f.key ==> RowFollows(t.documents[d], t'.documents[d], source, f)
  }

  // ----- What a scan does to a file

  /** The file's row follows it on disk, and what is under it stays. */
  ghost predicate Refreshed(t: Tables, t': Tables, source: nat, f: File) {
    && TextUnderKept(t, t', f.key)
    && exists d :: d in t.documents && d in t'.documents && RowFollows(t.documents[d], t'.documents[d], source, f)
  }

  predicate RowIs(row: Document, source: nat, f: File) {
    && row.source == source && row.key == f.key && row.path == f.path && row.extension == f.suffix
    && row.size == f.size && row.mtime == f.mtime && row.title == f.title && row.filename == f.filename && row.mode == f.mode
  }

  /** The chunk can be found by its text, its names and its heading, and by a vector the backend returned for them. */
  ghost predicate ChunkStored(embed: Embedder, t: Tables, c: nat, f: File, chunk: Chunk) {
    && c in t.chunks && t.chunks[c].chunk == chunk && c in t.fts && c in t.vectors
    && t.fts[c].text == chunk.text && t.fts[c].heading == chunk.heading
    && t.fts[c].title == f.title && t.fts[c].filename == f.filename
    && Answered(embed, InputFor(f.title, f.filename, chunk), t.vectors[c])
  }

  /** Document `d` is the file as it is on disk, with each of these chunks under its number. */
  ghost predicate StoredAs(source: nat, embed: Embedder, t: Tables, d: nat, chunks: seq<Chunk>, f: File) {
    && d in t.documents && RowIs(t.documents[d], source, f) && IsText(f, t.documents[d].digest, chunks)
    && NumberedTo(t, d, |chunks|)
    && forall c :: c in t.chunks && t.chunks[c].document == d ==>
         t.chunks[c].no < |chunks| && ChunkStored(embed, t, c, f, chunks[t.chunks[c].no])
  }

  ghost predicate FileIndexed(source: nat, embed: Embedder, t: Tables, f: File) {
    f.reachable && exists d: nat, chunks :: StoredAs(source, embed, t, d, chunks, f)
  }

  /** A file found unchanged is left alone, one whose bytes are already indexed gets its row refreshed, any other is indexed. */
  ghost predicate Done(source: nat, embed: Embedder, t: Tables, t': Tables, f: File) {
    if FileSettled(t, f) then KeyKept(t, t', f.key)
    else if f.mode == Content && HasDigest(t, f) then Refreshed(t, t', source, f)
    else FileIndexed(source, embed, t', f)
  }

  ghost predicate Waits(pending: seq<Prepared>, f: File) {
    exists item :: item in pending && Matches(item, f)
  }

  /** A file is done, or it has changed and waits to be written. */
  ghost predicate FileDone(source: nat, embed: Embedder, t: Tables, t': Tables, pending: seq<Prepared>, f: File) {
    || (Waits(pending, f) && Changed(t, f))
    || (f.key !in KeySet(pending) && Done(source, embed, t, t', f))
  }

  /** An indexed document that was prepared from the file. */
  lemma HeldIsIndexed(source: nat, embed: Embedder, t: Tables, item: Prepared, f: File)
    requires Matches(item, f) && Held(t, source, embed, item)
    ensures FileIndexed(source, embed, t, f)
  {
    hide NumberedTo, InputFor, Answered, IsText;
    var vectors :| Indexed(t, source, (item, vectors)) && OwnVectors(embed, (item, vectors));
    var d: nat :| Holds(t, d, DocumentOf(source, item), item.chunks, vectors);
    assert item.chunks[..|item.chunks|] == item.chunks && vectors[..|vectors|] == vectors;
    assert StoredAs(source, embed, t, d, item.chunks, f);
  }

  lemma IndexedKept(source: nat, embed: Embedder, t: Tables, t': Tables, f: File)
    requires FileIndexed(source, embed, t, f) && KeyKept(t, t', f.key)
    ensures FileIndexed(source, embed, t', f)
  {
    hide NumberedTo, InputFor, Answered, IsText;
    var d: nat, chunks :| StoredAs(source, embed, t, d, chunks, f);
    forall c: nat, no: nat ensures IsChunk(t', c, d, no) <==> IsChunk(t, c, d, no) {
      assert c in t.chunks && t.chunks[c].document == d ==> ChunkUnder(t, c, f.key) && RowKept(t, t', c);
      assert c in t'.chunks && t'.chunks[c].document == d ==> ChunkUnder(t', c, f.key) && RowKept(t, t', c);
    }
    SameNumbers(t, t', d, |chunks|);
    forall c | c in t'.chunks && t'.chunks[c].document == d
      ensures t'.chunks[c].no < |chunks| && ChunkStored(embed, t', c, f, chunks[t'.chunks[c].no])
    {
      assert ChunkUnder(t', c, f.key) && RowKept(t, t', c);
    }
    assert StoredAs(source, embed, t', d, chunks, f);
  }

  lemma DoneSettles(source: nat, embed: Embedder, t: Tables, t': Tables, f: File)
    requires Done(source, embed, t, t', f)
    ensures FileSettled(t', f)
  {
    hide TextUnderKept, NumberedTo, IsText, ChunkStored;
    if FileSettled(t, f) {
      var d :| d in t.documents && IsVersion(t.documents[d], f.key, f.size, f.mtime, f.mode);
      assert d in t'.documents && t'.documents[d] == t.documents[d];
    } else if f.mode == Content && HasDigest(t, f) {
      var d :| d in t.documents && d in t'.documents && RowFollows(t.documents[d], t'.documents[d], source, f);
      assert IsVersion(t'.documents[d], f.key, f.size, f.mtime, f.mode);
    } else {
      var d: nat, chunks :| StoredAs(source, embed, t', d, chunks, f);
      assert IsVersion(t'.documents[d], f.key, f.size, f.mtime, f.mode);
    }
  }

  /** Where the key is left alone, what was done stays done. */
  lemma DoneKept(source: nat, embed: Embedder, t: Tables, t': Tables, t'': Tables, f: File)
    requires Done(source, embed, t, t', f) && KeyKept(t', t'', f.key)
    ensures Done(source, embed, t, t'', f)
  {
    hide FileIndexed, FileSettled, HasDigest;
    if FileSettled(t, f) {
      KeyKeptTwice(t, t', t'', f.key);
    } else if f.mode == Content && HasDigest(t, f) {
      TextUnderKeptTwice(t, t', t'', f.key);
      hide TextUnderKept;
      var d :| d in t.documents && d in t'.documents && RowFollows(t.documents[d], t'.documents[d], source, f);
      assert d in t''.documents && t''.documents[d] == t'.documents[d];
    } else {
      IndexedKept(source, embed, t', t'', f);
    }
  }

  /** Until its turn a file's key is left alone, so that the turn may as well start from the first tables. */
  lemma SameFromStart(start: Tables, t: Tables, f: File)
    requires KeyKept(start, t, f.key)
    ensures FileSettled(start, f) <==> FileSettled(t, f)
    ensures HasDigest(start, f) <==> HasDigest(t, f)
    ensures Changed(start, f) <==> Changed(t, f)
  {
    hide TextUnderKept;
  }

  lemma DoneFromStart(source: nat, embed: Embedder, start: Tables, t: Tables, t': Tables, f: File)
    requires KeyKept(start, t, f.key) && Done(source, embed, t, t', f)
    ensures Done(source, embed, start, t', f)
  {
    SameFromStart(start, t, f);
    hide FileIndexed, FileSettled, HasDigest;
    if FileSettled(t, f) {
      KeyKeptTwice(start, t, t', f.key);
    } else if f.mode == Content && HasDigest(t, f) {
      TextUnderKeptTwice(start, t, t', f.key);
      hide TextUnderKept;
      var d :| d in t.documents && d in t'.documents && RowFollows(t.documents[d], t'.documents[d], source, f);
      assert d in start.documents && start.documents[d] == t.documents[d];
    }
  }

  lemma TouchSound(t: Tables, d: nat, source: nat, f: File)
    requires Sound(t) && d in t.documents && source in t.sources && t.documents[d].key == f.key && f.reachable
    requires f.digest == Some(t.documents[d].digest) && t.documents[d].mode == f.mode
    ensures var t' := SetDocument(t, d, Touched(t.documents[d], source, f));
            && Sound(t') && Evolved(t, t', {f.key})
            && FileSettled(t', f) && TextKept(t, t') && RowTouched(t, t', source, f)
  {
    hide Numbered, ChunksEvolved, DocumentsEvolved;
    var doc := Touched(t.documents[d], source, f);
    var t' := SetDocument(t, d, doc);
    ChunksAsBefore(t, t');
    SameChunksEvolve(t, t', {f.key});
    RowEvolves(t, t', d, doc);
    KeyIsOwn(t, d, doc);
    assert IsVersion(t'.documents[d], f.key, f.size, f.mtime, f.mode);
  }

  /** The row with the file's key decides what the turn is about. */
  lemma FoundDecides(t: Tables, f: File)
    requires Sound(t) && f.reachable
    ensures var found := OwnerOf(t, f.key);
            && (FileSettled(t, f) <==> found.Some? && IsVersion(t.documents[found.value], f.key, f.size, f.mtime, f.mode))
            && (HasDigest(t, f) <==>
                  && found.Some? && t.documents[found.value].mode == f.mode
                  && f.digest == Some(t.documents[found.value].digest))
  {
    var found := OwnerOf(t, f.key);
    if found.Some? { KeyIsOwn(t, found.value, t.documents[found.value]); }
    hide Numbered;
  }

  lemma SameChunksEvolve(t: Tables, t': Tables, keys: set<string>)
    requires t'.chunks == t.chunks && t'.fts == t.fts && t'.vectors == t.vectors
    ensures ChunksEvolved(t, t', keys)
  {
  }

  lemma ChunksAsBefore(t: Tables, t': Tables)
    requires Numbered(t) && t'.chunks == t.chunks
    ensures Numbered(t')
  {
    hide NumberedTo;
    forall x: nat ensures IsNumbered(t', x) {
      assert IsNumbered(t, x);
      var n: nat :| NumberedTo(t, x, n);
      SameNumbering(t, t', x, n);
    }
  }

  /** The part of a turn after `stat()`: compare, hash, extract. */
  method Prepare(con: Connection, source: nat, f: File, result: ScanResult) returns (r: Preparation)
    requires Sound(con.tables) && source in con.tables.sources && f.reachable
    modifies con`tables, con`statements, result`tally
    ensures Sound(con.tables) && Evolved(old(con.tables), con.tables, {f.key})
    ensures match r
            case Kept =>
              && FileSettled(con.tables, f)
              && result.tally == old(result.tally).(kept := old(result.tally).kept + 1,
                                                    completed := old(result.tally).completed + 1)
            case Ready(item) =>
              && con.tables == old(con.tables) && result.tally == old(result.tally)
              && Matches(item, f) && Current(con.tables, item) && Insertable(con.tables, item)
            case Broken =>
              con.tables == old(con.tables) && result.tally == old(result.tally)
    ensures FileSettled(old(con.tables), f) ==> r.Kept? && con.tables == old(con.tables)
    ensures TextKept(old(con.tables), con.tables)
    ensures r.Kept? && !FileSettled(old(con.tables), f) ==>
              && f.mode == Content && HasDigest(old(con.tables), f)
              && RowTouched(old(con.tables), con.tables, source, f)
    ensures con.Faultless() ==>
              (r.Kept? <==> FileSettled(old(con.tables), f) || (f.mode == Content && HasDigest(old(con.tables), f)))
    ensures r.Ready? <==> Changed(old(con.tables), f)
    ensures r.Ready? ==> r.item == ItemOf(old(con.tables), f)
    ensures r.Broken? ==> f.mode == Content && (f.digest.None? || f.content.None? || !con.Faultless())
  {
    hide Sound, Evolved, FileSettled, HasDigest, RowTouched, Touched, SetDocument, NoOwner;
    EvolvedNothing(con.tables);
    FoundDecides(con.tables, f);
    var found := OwnerOf(con.tables, f.key);
    if found.Some? {
      var doc := con.tables.documents[found.value];
      if doc.size == f.size && doc.mtime == f.mtime && doc.mode == f.mode {
        result.tally := result.tally.(kept := result.tally.kept + 1, completed := result.tally.completed + 1);
        return Kept;
      }
    }
    if f.mode == Metadata {
      return Ready(PreparedOf(f, found, "", MetadataChunks(f)));
    }
    if f.digest.None? {
      return Broken;
    }
    if found.Some? {
      var doc := con.tables.documents[found.value];
      if doc.digest == f.digest.value && doc.mode == f.mode {
        var updated := con.Execute();
        if !updated {
          return Broken;
        }
        TouchSound(con.tables, found.value, source, f);
        con.tables := SetDocument(con.tables, found.value, Touched(doc, source, f));
        result.tally := result.tally.(kept := result.tally.kept + 1, completed := result.tally.completed + 1);
        return Kept;
      }
    }
    if f.content.None? {
      return Broken;
    }
    return Ready(PreparedOf(f, found, f.digest.value, f.content.value));
  }

  lemma KeptAccounts(t: Tally, open: int)
    requires Accounted(t, open + 1)
    ensures Accounted(t.(kept := t.kept + 1, completed := t.completed + 1), open)
  {
    hide Sum;
  }

  lemma BrokenAccounts(t: Tally, open: int, e: string, mode: Mode)
    requires Accounted(t, open + 1)
    ensures var t' := Count(t, e, Failure(mode)).(completed := t.completed + 1);
            Accounted(t', open) && t'.totals.failed == t.totals.failed + 1
  {
    hide Sum, AddTo;
    CountKeeps(t, open + 1, e, Failure(mode));
  }

  lemma AppendKeys(pending: seq<Prepared>, item: Prepared)
    ensures KeySet(pending + [item]) == KeySet(pending) + {item.key}
    ensures DistinctKeys(pending) && item.key !in KeySet(pending) ==> DistinctKeys(pending + [item])
  {
    var more := pending + [item];
    assert more[|pending|] == item;
    assert forall k :: 0 <= k < |pending| ==> more[k] == pending[k] && pending[k].key in KeySet(pending);
  }

  /**
   * What one turn of the scan does to the catalog, the counters and the batch.  `excess` counts the files that
   * are completed although they stay pending; `stale` is the key of the preceding file, if the turn used its row.
   */
  ghost predicate TurnTaken(source: nat, embed: Embedder, t: Tables, t': Tables, tally: Tally, tally': Tally,
                            pending: seq<Prepared>,
                            pending': seq<Prepared>, f: File, stale: set<string>, excess: nat, excess': nat)
  {
    && Sound(t') && AllCurrent(t', pending') && excess <= excess'
    && Accounted(tally', |pending'| - excess') && tally.totals.failed <= tally'.totals.failed
    && OnlyFailing(tally, tally')
    && Evolved(t, t', KeySet(pending) + {f.key} + stale)
    && (forall item :: item in pending' ==> item in pending || Matches(item, f))
    && (DistinctKeys(pending) && f.key !in KeySet(pending) ==> DistinctKeys(pending'))
    && (DistinctKeys(pending) && f.key !in KeySet(pending) && AllInsertable(t, pending) && excess' == excess ==>
          AllInsertable(t', pending'))
    && (DistinctKeys(pending) && f.key !in KeySet(pending) && tally'.totals.failed == tally.totals.failed ==>
          NoneLost(source, embed, t, t', pending, pending', f) && Evolved(t, t', KeySet(pending) + {f.key}))
  }

  /** The file itself is done or waits, and so does everything that was pending before it. */
  ghost predicate NoneLost(source: nat, embed: Embedder, t: Tables, t': Tables, pending: seq<Prepared>, pending': seq<Prepared>,
                           f: File)
  {
    && FileDone(source, embed, t, t', pending', f)
    && forall item :: item in pending ==> item in pending' || Held(t', source, embed, item)
  }

  /**
   * The batch between two files: what is pending, the chunks that wait for a flush, the number of the next backend
   * call, and how many files are completed although they stay pending.
   */
  datatype Batch = Batch(pending: seq<Prepared>, waiting: int, calls: nat, excess: nat)

  /**
   * A document joins the batch.  Once the batch is large enough a flush is tried: it empties the batch, unless the
   * backend fails, which makes the files given up before that and this file completed although all of them stay.
   */
  function Queued(b: Batch, item: Prepared, embed: Embedder, batch: int): Batch {
    var pending, waiting := b.pending + [item], b.waiting + |item.chunks|;
    if waiting < batch then Batch(pending, waiting, b.calls, b.excess) else
      var e := Bisect(pending, embed, b.calls);
      if e.ok then Batch([], 0, e.calls, b.excess) else Batch(pending, waiting, e.calls, b.excess + |e.failed| + 1)
  }

  /** What a file does to the batch: only a changed one joins it. */
  ghost function NextBatch(b: Batch, t: Tables, f: File, embed: Embedder, batch: int): Batch
    requires Sound(t)
  {
    if Changed(t, f) then Queued(b, ItemOf(t, f), embed, batch) else b
  }

  /** Exactly then does the excess grow. */
  lemma ExcessGrowsIff(b: Batch, t: Tables, f: File, embed: Embedder, batch: int)
    requires Sound(t)
    ensures b.excess <= NextBatch(b, t, f, embed, batch).excess
    ensures b.excess < NextBatch(b, t, f, embed, batch).excess <==>
              && Changed(t, f) && b.waiting + |ItemOf(t, f).chunks| >= batch
              && !Bisect(b.pending + [ItemOf(t, f)], embed, b.calls).ok
  {
    hide Bisect, Changed, ItemOf, Sound;
  }

  /**
   * A prepared document joins the batch, and the batch is written once it is large enough.  If the backend fails
   * there, the batch stays as it is and the exception makes this file a failed one.
   */
  method Enqueue(con: Connection, source: nat, f: File, item: Prepared, embed: Embedder, batch: int, result: ScanResult,
                 pending: seq<Prepared>, waiting: int, ghost excess: nat)
    returns (pending': seq<Prepared>, waiting': int, ok: bool, ghost excess': nat)
    requires Sound(con.tables) && AllCurrent(con.tables, pending) && Current(con.tables, item) && Matches(item, f)
    requires Insertable(con.tables, item) && source in con.tables.sources && Changed(con.tables, f)
    requires Accounted(result.tally, |pending| + 1 - excess)
    modifies con, result
    ensures con.committed == old(con.committed) || con.committed == con.tables
    ensures !ok ==> con.committed == old(con.committed) && !con.Faultless()
    ensures ok ==> TurnTaken(source, embed, old(con.tables), con.tables, old(result.tally), result.tally, pending,
                             pending', f, {}, excess, excess')
    ensures Batch(pending', waiting', result.calls, excess') == Queued(Batch(pending, waiting, old(result.calls),
                                                                             excess), item, embed, batch)
    ensures excess <= excess' && result.failures == old(result.failures) + (if excess' > excess then 1 else 0)
    ensures BackendUp(embed) ==> ok && excess' == excess
    ensures ok && excess' > excess ==> LeftByName(old(con.tables), con.tables, source, f)
    ensures Smooth(con, embed, source, old(con.tables), pending, f) ==>
      result.tally.totals.failed == old(result.tally).totals.failed
  {
    hide Sound, Accounted, Evolved, DistinctKeys, Current, Matches, KeySet, AllHeld, SameScan, TurnTaken, Insertable,
      Reliable, Changed, LeftByName,
      AllCurrent, AllInsertable, Smooth, Bisect;
    pending' := pending + [item];
    waiting' := waiting + |item.chunks|;
    if waiting' >= batch {
      var written;
      written, ok, excess' := WriteBatch(con, source, f, item, embed, result, pending, excess);
      if written {
        pending', waiting' := [], 0;
      }
    } else {
      ok, excess' := true, excess;
      TurnByWaiting(source, embed, con.tables, result.tally, pending, item, f, excess);
    }
  }

  /** The flush in the loop, and the `except` clause if it raises. */
  method WriteBatch(con: Connection, source: nat, f: File, item: Prepared, embed: Embedder, result: ScanResult,
                    pending: seq<Prepared>, ghost excess: nat)
    returns (written: bool, ok: bool, ghost excess': nat)
    requires Sound(con.tables) && AllCurrent(con.tables, pending) && Current(con.tables, item) && Matches(item, f)
    requires Insertable(con.tables, item) && source in con.tables.sources && Changed(con.tables, f)
    requires Accounted(result.tally, |pending| + 1 - excess)
    modifies con, result
    ensures con.committed == old(con.committed) || con.committed == con.tables
    ensures !ok ==> con.committed == old(con.committed) && !con.Faultless()
    ensures ok ==> TurnTaken(source, embed, old(con.tables), con.tables, old(result.tally), result.tally, pending,
                             if written then [] else pending + [item], f, {}, excess, excess')
    ensures var e := Bisect(pending + [item], embed, old(result.calls));
            && (written <==> e.ok) && result.calls == e.calls
            && excess' == excess + (if e.ok then 0 else |e.failed| + 1)
            && result.failures == old(result.failures) + (if e.ok then 0 else 1)
    ensures written ==> ok
    ensures ok && !written ==> LeftByName(old(con.tables), con.tables, source, f)
    ensures BackendUp(embed) ==> written
    ensures Smooth(con, embed, source, old(con.tables), pending, f) ==>
      result.tally.totals.failed == old(result.tally).totals.failed
  {
    hide Sound, Accounted, Evolved, DistinctKeys, Current, Matches, KeySet, AllHeld, SameScan, TurnTaken, Insertable,
      Reliable, Changed, LeftByName,
      Bisect, AllCurrent, AllInsertable, BackendUp;
    ghost var before, tally := con.tables, result.tally;
    if Smooth(con, embed, source, con.tables, pending, f) { SmoothBatch(con.tables, pending, item, f); }
    ReliableIsUp(embed);
    FlushRaised(before, pending, item, f);
    ghost var lost;
    written, lost := con.Flush(source, pending + [item], embed, result, |pending| + 1 - excess);
    ok, excess' := true, excess;
    if written {
      TurnByFlush(source, embed, before, con.tables, tally, result.tally, pending, item, f, excess);
    } else {
      excess' := excess + lost + 1;
      ok := FailBatch(con, source, embed, f, item, result, pending, tally, excess, excess');
    }
  }

  /** The backend failed in the flush: the file is recorded as failed, and the batch stays. */
  method FailBatch(con: Connection, source: nat, ghost embed: Embedder, f: File, item: Prepared, result: ScanResult,
                   ghost pending: seq<Prepared>, ghost tally: Tally, ghost excess: nat, ghost excess': nat)
    returns (ok: bool)
    requires Sound(con.tables) && AllCurrent(con.tables, pending + [item]) && Current(con.tables, item) && Matches(item, f)
    requires source in con.tables.sources && excess < excess'
    requires item.previous.None? ==> NoOwner(con.tables, f.key)
    requires item.previous.Some? ==>
               item.previous.value in con.tables.documents && con.tables.documents[item.previous.value].key == f.key
    requires Accounted(result.tally, |pending| + 2 - excess') && SameScan(tally, result.tally)
    modifies con, result`tally
    ensures con.committed == old(con.committed) || con.committed == con.tables
    ensures !ok ==> con.committed == old(con.committed) && !con.Faultless()
    ensures ok ==> TurnTaken(source, embed, old(con.tables), con.tables, tally, result.tally, pending, pending + [item],
                             f, {}, excess, excess')
    ensures ok ==> LeftByName(old(con.tables), con.tables, source, f)
  {
    hide Sound, Accounted, Evolved, DistinctKeys, Current, Matches, KeySet, SameScan, TurnTaken, AllCurrent, Preserved,
      FileFailed, LeftByName;
    ghost var before, between := con.tables, result.tally;
    var stat := Answers(f.size, f.mtime, item.previous);
    ok := RecordBroken(con, source, f, stat, result, pending + [item], |pending| + 2 - excess');
    if ok {
      assert KeyWritten(before, f, stat) == f.key;
      LeftIs(before, con.tables, source, f, stat);
      TurnByFailure(source, embed, before, con.tables, tally, between, result.tally, pending, item, f, excess, excess');
    }
  }

  lemma LeftIs(t: Tables, t': Tables, source: nat, f: File, stat: Answers)
    requires Sound(t) && (stat.previous.Some? ==> stat.previous.value in t.documents)
    requires KeyWritten(t, f, stat) == f.key && stat.size == f.size && stat.mtime == f.mtime
    requires if f.mode == Content && f.office then Preserved(t, t', source, f, stat) else t' == t
    ensures LeftByName(t, t', source, f)
  {
    hide Sound, Preserved, NamedOnly;
    if f.mode == Content && f.office { var _ := PreservedIs(t, t', source, f, stat); }
  }

  lemma ReliableIsUp(embed: Embedder)
    ensures Reliable(embed) ==> BackendUp(embed)
  {
  }

  /** Nothing stands in the way of writing the batch with this file in it. */
  ghost predicate Smooth(con: Connection, embed: Embedder, source: nat, t: Tables, pending: seq<Prepared>, f: File) {
    && con.Faultless() && Reliable(embed) && source in t.sources
    && DistinctKeys(pending) && f.key !in KeySet(pending) && AllInsertable(t, pending)
  }

  lemma SmoothBatch(t: Tables, pending: seq<Prepared>, item: Prepared, f: File)
    requires DistinctKeys(pending) && f.key !in KeySet(pending) && AllInsertable(t, pending)
    requires Insertable(t, item) && Matches(item, f)
    ensures DistinctKeys(pending + [item]) && AllInsertable(t, pending + [item])
  {
    hide Insertable;
    AppendKeys(pending, item);
  }

  lemma ItemHasKey(item: Prepared, f: File)
    requires Matches(item, f)
    ensures item.key == f.key
  {
  }

  lemma TurnByWaiting(source: nat, embed: Embedder, t: Tables, tally: Tally, pending: seq<Prepared>, item: Prepared,
                      f: File, excess: nat)
    requires Sound(t) && AllCurrent(t, pending) && Current(t, item) && Insertable(t, item) && Matches(item, f) && Changed(t, f)
    requires Accounted(tally, |pending| + 1 - excess)
    ensures TurnTaken(source, embed, t, t, tally, tally, pending, pending + [item], f, {}, excess, excess)
  {
    hide Sound, Accounted, Evolved, DistinctKeys, Current, KeySet, Insertable, Held, Changed, Done, Matches;
    assert item.key == f.key by { ItemHasKey(item, f); }
    AppendKeys(pending, item);
    EvolvedNothing(t);
    assert item in pending + [item] && forall x :: x in pending ==> x in pending + [item];
    assert Waits(pending + [item], f);
  }

  lemma TurnByFlush(source: nat, embed: Embedder, t: Tables, t': Tables, tally: Tally, tally': Tally,
                    pending: seq<Prepared>, item: Prepared, f: File,
                    excess: nat)
    requires Sound(t') && Matches(item, f) && Changed(t, f) && Evolved(t, t', KeySet(pending + [item]))
    requires Accounted(tally', 0 - excess) && SameScan(tally, tally')
    requires tally'.totals.failed == tally.totals.failed && DistinctKeys(pending + [item]) ==>
               AllHeld(t', source, embed, pending + [item])
    ensures TurnTaken(source, embed, t, t', tally, tally', pending, [], f, {}, excess, excess)
  {
    if tally'.totals.failed == tally.totals.failed && DistinctKeys(pending + [item]) {
      assert item in pending + [item];
      WrittenIsDone(source, embed, t, t', item, f);
    }
    hide Held, Matches, Accounted, Sound, OnlyFailing, DocumentsEvolved, ChunksEvolved, Done, Changed;
    AppendKeys(pending, item);
    assert item in pending + [item] && forall x :: x in pending ==> x in pending + [item];
    assert KeySet(pending) + {f.key} + {} == KeySet(pending + [item]);
  }

  lemma FlushRaised(t: Tables, pending: seq<Prepared>, item: Prepared, f: File)
    requires AllCurrent(t, pending) && Current(t, item) && Matches(item, f)
    ensures AllCurrent(t, pending + [item])
    ensures item.previous.Some? ==> item.previous.value in t.documents && t.documents[item.previous.value].key == f.key
    ensures item.previous.None? && Insertable(t, item) ==> NoOwner(t, f.key)
  {
  }

  lemma TurnByFailure(source: nat, embed: Embedder, t: Tables, t': Tables, tally: Tally, between: Tally, tally': Tally,
                      pending: seq<Prepared>,
                      item: Prepared, f: File, excess: nat, excess': nat)
    requires Sound(t') && AllCurrent(t', pending + [item]) && Matches(item, f) && Evolved(t, t', {f.key})
    requires excess < excess' && Accounted(tally', |pending| + 1 - excess') && SameScan(tally, between)
    requires FileFailed(between, tally', f.extension, f.mode)
    ensures TurnTaken(source, embed, t, t', tally, tally', pending, pending + [item], f, {}, excess, excess')
  {
    FailedMeans(between, tally', f.extension, f.mode);
    FailingTwice(tally, between, tally');
    hide Sound, Accounted, Evolved, DistinctKeys, KeySet, AllCurrent, FileFailed, OnlyFailing;
    AppendKeys(pending, item);
    EvolvedWiden(t, t', {f.key}, KeySet(pending) + {f.key} + {});
  }

  lemma FailedMeans(t: Tally, t': Tally, extension: string, mode: Mode)
    requires FileFailed(t, t', extension, mode)
    ensures OnlyFailing(t, t') && t'.totals.failed == t.totals.failed + 1
  {
    assert CountsOf(t', None) == t'.totals && CountsOf(t, None) == t.totals;
  }

  lemma FailingTwice(t: Tally, t': Tally, t'': Tally)
    requires OnlyFailing(t, t') && OnlyFailing(t', t'')
    ensures OnlyFailing(t, t'')
  {
  }

  /** What the `except` clause does: `ok` is false when keeping the file's row raises in turn, which ends the scan. */
  method RecordBroken(con: Connection, source: nat, f: File, stat: Answers, result: ScanResult,
                      ghost pending: seq<Prepared>, ghost open: int)
    returns (ok: bool)
    requires Sound(con.tables) && source in con.tables.sources && AllCurrent(con.tables, pending)
    requires stat.previous.Some? ==> stat.previous.value in con.tables.documents
    requires Accounted(result.tally, open)
    modifies con, result`tally
    ensures con.committed == old(con.committed) || con.committed == con.tables
    ensures !ok ==> con.committed == old(con.committed)
    ensures !ok ==> f.mode == Content && f.office
    ensures !ok ==> !con.Faultless() || (stat.previous.None? && !NoOwner(old(con.tables), f.key))
    ensures ok ==> Sound(con.tables) && AllCurrent(con.tables, pending) && Accounted(result.tally, open - 1)
    ensures ok ==> Evolved(old(con.tables), con.tables, {KeyWritten(old(con.tables), f, stat)})
    ensures ok && stat.previous.Some? ==> con.tables.documents.Keys == old(con.tables).documents.Keys
    ensures ok ==> if f.mode == Content && f.office then Preserved(old(con.tables), con.tables, source, f, stat)
                   else con.tables == old(con.tables)
    ensures ok ==> FileFailed(old(result.tally), result.tally, f.extension, f.mode)
  {
    hide Sound, Accounted, Evolved, AllCurrent, AddTo, Preserved, FileFailed;
    ghost var before := con.tables;
    ok := true;
    EvolvedNothing(con.tables);
    if f.mode == Content && f.office {
      ok := PreserveFailed(con, source, f, stat);
      if !ok { return; }
    }
    BrokenAccounts(result.tally, open - 1, f.extension, f.mode);
    FailureMeans(result.tally, f.extension, f.mode);
    result.tally := Count(result.tally, f.extension, Failure(f.mode)).(completed := result.tally.completed + 1);
    EvolvedKeepsCurrent(before, con.tables, {KeyWritten(before, f, stat)}, pending);
  }

  /** The turn of a file that is recorded as failed before it is pending. */
  lemma BrokenTurn(source: nat, embed: Embedder, t: Tables, t': Tables, tally: Tally, tally': Tally,
                   pending: seq<Prepared>, f: File, stat: Answers,
                   excess: nat)
    requires Sound(t') && AllCurrent(t', pending)
    requires stat.previous.Some? ==> stat.previous.value in t.documents && t'.documents.Keys == t.documents.Keys
    requires Evolved(t, t', {KeyWritten(t, f, stat)})
    requires FileFailed(tally, tally', f.extension, f.mode) && Accounted(tally', |pending| - excess)
    ensures TurnTaken(source, embed, t, t', tally, tally', pending, pending, f, {KeyWritten(t, f, stat)}, excess, excess)
  {
    FailedMeans(tally, tally', f.extension, f.mode);
    hide Sound, Accounted, DistinctKeys, KeySet, FileFailed, OnlyFailing, ChunksEvolved;
    var keys := {KeyWritten(t, f, stat)};
    EvolvedWiden(t, t', keys, KeySet(pending) + {f.key} + keys);
    if stat.previous.Some? {
      SameDocumentKeys(t, t', pending, keys);
    } else {
      OthersInsertable(t, t', pending, f.key);
    }
  }

  lemma SameDocumentKeys(t: Tables, t': Tables, pending: seq<Prepared>, keys: set<string>)
    requires Evolved(t, t', keys) && t'.documents.Keys == t.documents.Keys
    ensures AllInsertable(t, pending) ==> AllInsertable(t', pending)
  {
    hide ChunksEvolved;
    assert forall d :: d in t'.documents ==> d in t.documents && t'.documents[d].key == t.documents[d].key;
  }

  lemma OthersInsertable(t: Tables, t': Tables, pending: seq<Prepared>, key: string)
    requires Evolved(t, t', {key})
    ensures key !in KeySet(pending) && AllInsertable(t, pending) ==> AllInsertable(t', pending)
  {
    hide Insertable;
    MembersHaveKeys(pending);
    if key !in KeySet(pending) && AllInsertable(t, pending) {
      InsertableKept(t, t', {key}, pending);
    }
  }

  lemma KeptTurn(source: nat, embed: Embedder, t: Tables, t': Tables, tally: Tally, pending: seq<Prepared>, f: File, excess: nat)
    requires Sound(t') && AllCurrent(t, pending) && Evolved(t, t', {f.key}) && Done(source, embed, t, t', f)
    requires Accounted(tally, |pending| + 1 - excess)
    ensures var tally' := tally.(kept := tally.kept + 1, completed := tally.completed + 1);
            TurnTaken(source, embed, t, t', tally, tally', pending, pending, f, {}, excess, excess)
  {
    hide Sound, Accounted, Evolved, DistinctKeys, Current, AllInsertable, Done, Held, Matches, Changed;
    OthersInsertable(t, t', pending, f.key);
    KeptAccounts(tally, |pending| - excess);
    EvolvedWiden(t, t', {f.key}, KeySet(pending) + {f.key});
    assert KeySet(pending) + {f.key} + {} == KeySet(pending) + {f.key};
    EvolvedKeepsCurrent(t, t', {f.key}, pending);
  }

  lemma KeptIsDone(source: nat, embed: Embedder, t: Tables, t': Tables, f: File)
    requires FileSettled(t, f) ==> t' == t
    requires !FileSettled(t, f) ==>
               && f.mode == Content && HasDigest(t, f) && f.reachable
               && TextKept(t, t') && RowTouched(t, t', source, f)
    ensures Done(source, embed, t, t', f)
  {
    hide FileSettled, FileIndexed;
    if !FileSettled(t, f) {
      assert TextUnderKept(t, t', f.key);
    }
  }

  ghost predicate EarlierKnown(t: Tables, earlier: Option<Answers>) {
    earlier.Some? && earlier.value.previous.Some? ==> earlier.value.previous.value in t.documents
  }

  /** The key whose row the `except` clause writes if `stat()` raises. */
  ghost function StaleKeys(t: Tables, earlier: Option<Answers>): set<string>
    requires EarlierKnown(t, earlier)
  {
    if earlier.Some? && earlier.value.previous.Some? then {t.documents[earlier.value.previous.value].key} else {}
  }

  /** What a file that cannot be reached leaves in the catalog, if the scan goes on. */
  ghost predicate KeptByStaleAnswers(t: Tables, t': Tables, source: nat, f: File, earlier: Option<Answers>)
    requires EarlierKnown(t, earlier)
  {
    if f.mode == Content && f.office then earlier.Some? && Preserved(t, t', source, f, earlier.value) else t' == t
  }

  /** With no failing statement, exactly then does the scan go on after a file that cannot be reached. */
  ghost predicate Survivable(t: Tables, f: File, earlier: Option<Answers>) {
    f.mode == Content && f.office ==> earlier.Some? && (earlier.value.previous.Some? || NoOwner(t, f.key))
  }

  /** An office file that cannot be reached is handled with the answers for a file that has a row under another key. */
  ghost predicate TakesOver(t: Tables, f: File, earlier: Option<Answers>)
    requires EarlierKnown(t, earlier)
  {
    && f.mode == Content && f.office && earlier.Some? && earlier.value.previous.Some?
    && t.documents[earlier.value.previous.value].key != f.key
  }

  /** The rows that bear the file's path under another key than the file's. */
  ghost function Bearers(t: Tables, f: File): set<nat> {
    set d | d in t.documents && t.documents[d].key != f.key && t.documents[d].path == f.path
  }

  /** Exactly then does a row of another file come to bear this file's path, and it has no text any more. */
  lemma TakeoverIff(t: Tables, t': Tables, source: nat, f: File, earlier: Option<Answers>)
    requires Sound(t) && EarlierKnown(t, earlier) && KeptByStaleAnswers(t, t', source, f, earlier)
    ensures Bearers(t', f) == Bearers(t, f) + if TakesOver(t, f, earlier) then {earlier.value.previous.value} else {}
    ensures TakesOver(t, f, earlier) ==> forall c :: c in t'.chunks ==> t'.chunks[c].document != earlier.value.previous.value
  {
    hide OthersKept, NumberedTo;
    if f.mode == Content && f.office && earlier.value.previous.Some? {
      var _ := PreservedIs(t, t', source, f, earlier.value);
    }
  }

  lemma KeptSurvives(t: Tables, t': Tables, source: nat, f: File, earlier: Option<Answers>)
    requires EarlierKnown(t, earlier) && KeptByStaleAnswers(t, t', source, f, earlier)
    ensures Survivable(t, f, earlier)
  {
    hide Written, NoOwner;
  }

  /**
   * A file whose `stat()` raises.  The `except` clause uses what `stat` and `old` still hold from the last file
   * that could be reached: an office file takes over that file's row, and with no such file the scan ends.
   */
  method ProcessUnreachable(con: Connection, source: nat, ghost embed: Embedder, f: File, earlier: Option<Answers>,
                            result: ScanResult,
                            ghost pending: seq<Prepared>, ghost excess: nat)
    returns (ok: bool)
    requires Sound(con.tables) && source in con.tables.sources && AllCurrent(con.tables, pending)
    requires EarlierKnown(con.tables, earlier)
    requires Accounted(result.tally, |pending| + 1 - excess)
    modifies con, result`tally
    ensures con.committed == old(con.committed) || (ok && con.committed == con.tables)
    ensures ok ==> TurnTaken(source, embed, old(con.tables), con.tables, old(result.tally), result.tally, pending, pending, f,
                             StaleKeys(old(con.tables), earlier) + {f.key}, excess, excess)
    ensures ok ==> KeptByStaleAnswers(old(con.tables), con.tables, source, f, earlier)
    ensures con.Faultless() ==> (ok <==> Survivable(old(con.tables), f, earlier))
    ensures ok ==> result.tally.totals.failed == old(result.tally).totals.failed + 1
  {
    hide Sound, Accounted, Evolved, TurnTaken, AllCurrent, Preserved, KeySet, NoOwner, FileFailed;
    ghost var before, tally := con.tables, result.tally;
    if f.mode == Content && f.office && earlier.None? {
      return false;
    }
    var stat := earlier.GetOr(Answers(0, 0, None));
    ok := RecordBroken(con, source, f, stat, result, pending, |pending| + 1 - excess);
    if ok {
      KeptSurvives(before, con.tables, source, f, earlier);
      BrokenTurn(source, embed, before, con.tables, tally, result.tally, pending, f, stat, excess);
      TurnWidened(source, embed, before, con.tables, tally, result.tally, pending, pending, f, {KeyWritten(before, f, stat)},
                  StaleKeys(before, earlier) + {f.key}, excess, excess);
      FailedMeans(tally, result.tally, f.extension, f.mode);
    }
  }

  lemma TurnEvolves(source: nat, embed: Embedder, t: Tables, t': Tables, tally: Tally, tally': Tally,
                    pending: seq<Prepared>, pending': seq<Prepared>,
                    f: File, excess: nat, excess': nat)
    requires TurnTaken(source, embed, t, t', tally, tally', pending, pending', f, {f.key}, excess, excess')
    ensures Evolved(t, t', KeySet(pending) + {f.key})
  {
    hide Sound, Accounted, Evolved, DistinctKeys, KeySet, AllCurrent, AllInsertable, NoneLost;
    assert KeySet(pending) + {f.key} + {f.key} == KeySet(pending) + {f.key};
  }

  lemma TurnWidened(source: nat, embed: Embedder, t: Tables, t': Tables, tally: Tally, tally': Tally,
                    pending: seq<Prepared>, pending': seq<Prepared>,
                    f: File, stale: set<string>, keys: set<string>, excess: nat, excess': nat)
    requires TurnTaken(source, embed, t, t', tally, tally', pending, pending', f, stale, excess, excess') && stale <= keys
    ensures TurnTaken(source, embed, t, t', tally, tally', pending, pending', f, keys, excess, excess')
  {
    hide Sound, Accounted, Evolved, DistinctKeys, KeySet, AllCurrent, AllInsertable, NoneLost;
    EvolvedWiden(t, t', KeySet(pending) + {f.key} + stale, KeySet(pending) + {f.key} + keys);
  }

  /** A file that can be reached; `ok` is false when the scan has to be given up. */
  method ProcessReachable(con: Connection, source: nat, f: File, embed: Embedder, batch: int, result: ScanResult,
                          pending: seq<Prepared>, waiting: int, ghost excess: nat)
    returns (pending': seq<Prepared>, waiting': int, ok: bool, ghost excess': nat)
    requires f.reachable && Sound(con.tables) && source in con.tables.sources && AllCurrent(con.tables, pending)
    requires Accounted(result.tally, |pending| + 1 - excess)
    modifies con, result
    ensures con.committed == old(con.committed) || (ok && con.committed == con.tables)
    ensures ok ==> TurnTaken(source, embed, old(con.tables), con.tables, old(result.tally), result.tally, pending,
                             pending', f, {f.key},
                             excess, excess')
    ensures !ok ==> !con.Faultless()
    ensures Batch(pending', waiting', result.calls, excess')
            == NextBatch(Batch(pending, waiting, old(result.calls), excess), old(con.tables), f, embed, batch)
    ensures excess <= excess' && result.failures == old(result.failures) + (if excess' > excess then 1 else 0)
    ensures BackendUp(embed) ==> excess' == excess
    ensures ok && (excess' > excess || (con.Faultless() && Unreadable(old(con.tables), f))) ==>
              LeftByName(old(con.tables), con.tables, source, f)
    ensures Readable(f) && !f.ignored && Smooth(con, embed, source, old(con.tables), pending, f) ==>
              ok && result.tally.totals.failed == old(result.tally).totals.failed
    ensures con.Faultless() && OnlyTouched(old(con.tables), f) ==>
              && TextKept(old(con.tables), con.tables) && RowTouched(old(con.tables), con.tables, source, f)
              && ok && pending' == pending && result.tally.kept == old(result.tally).kept + 1
    ensures FileSettled(old(con.tables), f) ==>
              && ok && con.tables == old(con.tables) && pending' == pending && excess' == excess
              && result.tally == old(result.tally).(kept := old(result.tally).kept + 1,
                                                    completed := old(result.tally).completed + 1)
  {
    hide Sound, Accounted, Evolved, Current, FileSettled, TurnTaken, AllCurrent, Insertable, DistinctKeys, KeySet, Reliable,
      AllInsertable, Count, Preserved, NoOwner, Queued, Changed, ItemOf, TextKept, RowTouched, HasDigest, LeftByName,
        Matches, Done;
    UnreadableMeans(con.tables, f);
    ghost var before, tally := con.tables, result.tally;
    pending', waiting', ok, excess' := pending, waiting, true, excess;
    var r := Prepare(con, source, f, result);
    match r {
      case Kept =>
        KeptIsDone(source, embed, before, con.tables, f);
        KeptTurn(source, embed, before, con.tables, tally, pending, f, excess);
        TurnWidened(source, embed, before, con.tables, tally, result.tally, pending, pending, f, {}, {f.key}, excess, excess);
      case Ready(item) =>
        pending', waiting', ok, excess' := Enqueue(con, source, f, item, embed, batch, result, pending, waiting, excess);
        if ok {
          TurnWidened(source, embed, before, con.tables, tally, result.tally, pending, pending', f, {}, {f.key}, excess, excess');
        }
      case Broken =>
        ok := ProcessBroken(con, source, embed, f, result, pending, excess);
    }
  }

  lemma UnreadableMeans(t: Tables, f: File)
    ensures Unreadable(t, f) ==> !Changed(t, f)
  {
  }

  /** A file that could be reached and not read. */
  method ProcessBroken(con: Connection, source: nat, ghost embed: Embedder, f: File, result: ScanResult,
                       ghost pending: seq<Prepared>, ghost excess: nat)
    returns (ok: bool)
    requires f.reachable && Sound(con.tables) && source in con.tables.sources && AllCurrent(con.tables, pending)
    requires Accounted(result.tally, |pending| + 1 - excess)
    modifies con, result`tally
    ensures con.committed == old(con.committed) || (ok && con.committed == con.tables)
    ensures ok ==> TurnTaken(source, embed, old(con.tables), con.tables, old(result.tally), result.tally, pending,
                             pending, f, {f.key},
                             excess, excess)
    ensures !ok ==> !con.Faultless()
    ensures ok ==> LeftByName(old(con.tables), con.tables, source, f)
  {
    hide Sound, Accounted, Evolved, TurnTaken, AllCurrent, Preserved, FileFailed, KeySet, LeftByName;
    ghost var before, tally := con.tables, result.tally;
    var stat := Answers(f.size, f.mtime, OwnerOf(con.tables, f.key));
    ok := RecordBroken(con, source, f, stat, result, pending, |pending| + 1 - excess);
    if ok {
      assert KeyWritten(before, f, stat) == f.key;
      LeftIs(before, con.tables, source, f, stat);
      BrokenTurn(source, embed, before, con.tables, tally, result.tally, pending, f, stat, excess);
    }
  }

  /** What `stat` and `old` hold after a file. */
  ghost function EarlierAfter(t: Tables, f: File, earlier: Option<Answers>): Option<Answers>
    requires Sound(t)
  {
    if f.reachable then Some(Answers(f.size, f.mtime, OwnerOf(t, f.key))) else earlier
  }

  /**
   * What `stat` and `old` hold after a file: nothing new if it is ignored or cannot be reached, otherwise its size, its
   * time and the row with its key.
   */
  ghost predicate AnswersFor(t: Tables, f: File, earlier: Option<Answers>, earlier': Option<Answers>) {
    if f.ignored || !f.reachable then earlier' == earlier
    else
      && earlier'.Some? && earlier'.value.size == f.size && earlier'.value.mtime == f.mtime
      && match earlier'.value.previous
         case None => NoOwner(t, f.key)
         case Some(d) => d in t.documents && t.documents[d].key == f.key
  }

  lemma EarlierIs(t: Tables, f: File, earlier: Option<Answers>)
    requires Sound(t)
    ensures !f.ignored ==> AnswersFor(t, f, earlier, EarlierAfter(t, f, earlier))
    ensures f.ignored ==> AnswersFor(t, f, earlier, earlier)
  {
    hide Sound;
  }

  /** One file of a scan, already counted as seen and classified; `ok` is false when the scan has to be given up. */
  method ProcessFile(con: Connection, source: nat, f: File, embed: Embedder, batch: int, result: ScanResult,
                     pending: seq<Prepared>, waiting: int, earlier: Option<Answers>, ghost excess: nat)
    returns (pending': seq<Prepared>, waiting': int, earlier': Option<Answers>, ok: bool, ghost excess': nat)
    requires Sound(con.tables) && source in con.tables.sources && AllCurrent(con.tables, pending)
    requires EarlierKnown(con.tables, earlier)
    requires Accounted(result.tally, |pending| + 1 - excess)
    modifies con, result
    ensures con.committed == old(con.committed) || (ok && con.committed == con.tables)
    ensures ok ==> TurnTaken(source, embed, old(con.tables), con.tables, old(result.tally), result.tally, pending, pending', f,
                             StaleKeys(old(con.tables), earlier) + {f.key}, excess, excess')
    ensures earlier' == EarlierAfter(old(con.tables), f, earlier)
    ensures EarlierKnown(old(con.tables), earlier')
    ensures StaleKeys(old(con.tables), earlier') <= StaleKeys(old(con.tables), earlier) + {f.key}
    ensures f.reachable && con.Faultless() ==> ok
    ensures f.reachable && ok ==> Evolved(old(con.tables), con.tables, KeySet(pending) + {f.key})
    ensures !f.reachable && con.Faultless() ==> (ok <==> Survivable(old(con.tables), f, earlier))
    ensures !f.reachable && ok ==>
              && KeptByStaleAnswers(old(con.tables), con.tables, source, f, earlier)
              && result.tally.totals.failed == old(result.tally).totals.failed + 1
    ensures Batch(pending', waiting', result.calls, excess')
            == NextBatch(Batch(pending, waiting, old(result.calls), excess), old(con.tables), f, embed, batch)
    ensures excess <= excess' && result.failures == old(result.failures) + (if excess' > excess then 1 else 0)
    ensures BackendUp(embed) ==> excess' == excess
    ensures ok && (excess' > excess || (con.Faultless() && Unreadable(old(con.tables), f))) ==>
              LeftByName(old(con.tables), con.tables, source, f)
    ensures Readable(f) && !f.ignored && Smooth(con, embed, source, old(con.tables), pending, f) ==>
              ok && result.tally.totals.failed == old(result.tally).totals.failed
    ensures con.Faultless() && OnlyTouched(old(con.tables), f) ==>
              && TextKept(old(con.tables), con.tables) && RowTouched(old(con.tables), con.tables, source, f)
              && ok && pending' == pending && result.tally.kept == old(result.tally).kept + 1
    ensures FileSettled(old(con.tables), f) ==>
              && ok && con.tables == old(con.tables) && pending' == pending && excess' == excess
              && result.tally == old(result.tally).(kept := old(result.tally).kept + 1,
                                                    completed := old(result.tally).completed + 1)
  {
    hide Sound, Accounted, Evolved, Current, TurnTaken, AllCurrent, Insertable, DistinctKeys, KeySet, Reliable, AllInsertable,
      LeftByName, Preserved, Smooth, Queued, ItemOf, NoOwner, KeptByStaleAnswers, Survivable, HasDigest, TextKept, RowTouched;
    ghost var before, tally := con.tables, result.tally;
    if f.reachable {
      earlier' := Some(Answers(f.size, f.mtime, OwnerOf(con.tables, f.key)));
      pending', waiting', ok, excess' := ProcessReachable(con, source, f, embed, batch, result, pending, waiting, excess);
      if ok {
        TurnEvolves(source, embed, before, con.tables, tally, result.tally, pending, pending', f, excess, excess');
        TurnWidened(source, embed, before, con.tables, tally, result.tally, pending, pending', f, {f.key},
                    StaleKeys(before, earlier) + {f.key}, excess, excess');
      }
    } else {
      pending', waiting', earlier', excess' := pending, waiting, earlier, excess;
      ok := ProcessUnreachable(con, source, embed, f, earlier, result, pending, excess);
    }
  }

  // ----- Reconciliation

  predicate Orphan(doc: Document, source: nat, seen: set<string>) {
    doc.source == source && doc.key !in seen
  }

  ghost function Orphans(t: Tables, source: nat, seen: set<string>): set<nat> {
    set d | d in t.documents && Orphan(t.documents[d], source, seen)
  }

  /** Deletes the documents of the source whose files were not seen, and no others. */
  method Reconcile(con: Connection, source: nat, seen: set<string>, result: ScanResult)
    requires Sound(con.tables)
    modifies con`tables, result`tally
    ensures Sound(con.tables) && con.tables.sources == old(con.tables).sources
    ensures con.tables.documents == old(con.tables).documents - Orphans(old(con.tables), source, seen)
    ensures ChunksSpared(old(con.tables), con.tables, Orphans(old(con.tables), source, seen))
    ensures NoNewChunks(old(con.tables), con.tables)
    ensures Orphans(old(con.tables), source, seen) == {} ==> con.tables == old(con.tables)
    ensures result.tally == old(result.tally).(deleted := old(result.tally).deleted + |Orphans(old(con.tables), source, seen)|)
  {
    hide Sound, DropDocument, Reconciled, ChunksSpared, NoNewChunks;
    StartReconciled(con.tables);
    var t := con.tables;
    var left := set d | d in t.documents && t.documents[d].source == source;
    ghost var gone: set<nat> := {};
    ghost var orphans := Orphans(t, source, seen);
    while left != {}
      invariant left <= t.documents.Keys && gone <= orphans && gone !! left
      invariant forall d :: d in orphans ==> d in gone || d in left
      invariant Reconciled(t, con.tables, gone)
      invariant result.tally == old(result.tally).(deleted := old(result.tally).deleted + |gone|)
      decreases |left|
    {
      var d :| d in left;
      if Orphan(t.documents[d], source, seen) {
        DropReconciles(t, con.tables, gone, d);
        con.tables := DropDocument(con.tables, d);
        result.tally := result.tally.(deleted := result.tally.deleted + 1);
        gone := gone + {d};
      }
      left := left - {d};
    }
    assert gone == orphans;
    ReconciledMeans(t, con.tables, gone);
  }

  lemma StartReconciled(t: Tables)
    requires Sound(t)
    ensures Reconciled(t, t, {})
  {
    hide Sound;
    assert t.documents - {} == t.documents;
  }

  lemma ReconciledMeans(t: Tables, t': Tables, gone: set<nat>)
    requires Reconciled(t, t', gone)
    ensures Sound(t') && t'.sources == t.sources && t'.documents == t.documents - gone && (gone == {} ==> t' == t)
    ensures ChunksSpared(t, t', gone) && NoNewChunks(t, t')
  {
    hide Sound, ChunksSpared, NoNewChunks;
  }

  /** The chunks of the other documents are the same rows, with the same full-text rows and vectors. */
  ghost predicate ChunksSpared(t: Tables, t': Tables, gone: set<nat>) {
    forall c :: c in t.chunks && t.chunks[c].document !in gone ==> RowKept(t, t', c)
  }

  ghost predicate NoNewChunks(t: Tables, t': Tables) {
    forall c :: c in t'.chunks ==> c in t.chunks && t'.chunks[c] == t.chunks[c]
  }

  lemma DropSpares(t: Tables, t': Tables, gone: set<nat>, d: nat)
    requires ChunksSpared(t, t', gone) && NoNewChunks(t, t')
    ensures ChunksSpared(t, DropDocument(t', d), gone + {d}) && NoNewChunks(t, DropDocument(t', d))
  {
    forall c | c in t.chunks && t.chunks[c].document !in gone + {d} ensures RowKept(t, DropDocument(t', d), c) {
      assert RowKept(t, t', c);
    }
  }

  ghost predicate Reconciled(t: Tables, t': Tables, gone: set<nat>) {
    && Sound(t') && t'.sources == t.sources && t'.documents == t.documents - gone
    && (gone == {} ==> t' == t)
    && ChunksSpared(t, t', gone) && NoNewChunks(t, t')
  }

  lemma DropReconciles(t: Tables, t': Tables, gone: set<nat>, d: nat)
    requires Reconciled(t, t', gone)
    ensures Reconciled(t, DropDocument(t', d), gone + {d})
  {
    hide Sound, ChunksSpared, NoNewChunks;
    DropDocumentSound(t', d);
    DropSpares(t, t', gone, d);
    assert t.documents - gone - {d} == t.documents - (gone + {d});
  }

  // ----- The scan

  /** Each pending document was prepared from one of the files seen so far. */
  ghost predicate PendingFrom(pending: seq<Prepared>, files: seq<File>) {
    forall item :: item in pending ==> exists f :: f in files && !f.ignored && Matches(item, f)
  }

  ghost predicate AllDone(source: nat, embed: Embedder, start: Tables, t: Tables, pending: seq<Prepared>, files: seq<File>) {
    forall f :: f in files && !f.ignored ==> FileDone(source, embed, start, t, pending, f)
  }

  // ----- What the counters say

  datatype Group = Every | Ignored | InContent | InMetadata

  predicate InGroup(f: File, extension: Option<string>, group: Group) {
    && (extension == None || extension == Some(f.extension))
    && match group
       case Every => true
       case Ignored => f.ignored
       case InContent => !f.ignored && f.mode == Content
       case InMetadata => !f.ignored && f.mode == Metadata
  }

  /** How many of the files with an extension, or of all, belong to a group. */
  function FilesIn(files: seq<File>, extension: Option<string>, group: Group): nat {
    if files == [] then 0 else
      FilesIn(files[..|files| - 1], extension, group) + if InGroup(files[|files| - 1], extension, group) then 1 else 0
  }

  /** With every extension each file is seen, and counted as what it is or, failing that, as failed. */
  ghost predicate Counted(tally: Tally, files: seq<File>) {
    forall e :: var c := CountsOf(tally, e);
      && c.seen == FilesIn(files, e, Every) && c.ignored == FilesIn(files, e, Ignored)
      && c.content <= FilesIn(files, e, InContent) && c.metadata <= FilesIn(files, e, InMetadata)
  }

  lemma NoneCounted(tally: Tally)
    requires NothingCounted(tally)
    ensures Counted(tally, [])
  {
  }

  lemma OneMoreIn(files: seq<File>, f: File, e: Option<string>, group: Group)
    ensures FilesIn(files + [f], e, group) == FilesIn(files, e, group) + if InGroup(f, e, group) then 1 else 0
  {
    assert (files + [f])[..|files|] == files;
  }

  /** One more file is counted as what it is, and some files as failed instead. */
  lemma OneMoreCounted(tally: Tally, counted: Tally, tally': Tally, files: seq<File>, f: File)
    requires Counted(tally, files) && OnlyFailing(counted, tally')
    requires if f.ignored then CountsChange(tally, counted, f.extension, f.mode, 1, 0, 1, 0)
             else CountsChange(tally, counted, f.extension, f.mode, 1, 1, 0, 0)
    ensures Counted(tally', files + [f])
  {
    forall e
      ensures var c := CountsOf(tally', e);
              && c.seen == FilesIn(files + [f], e, Every) && c.ignored == FilesIn(files + [f], e, Ignored)
              && c.content <= FilesIn(files + [f], e, InContent) && c.metadata <= FilesIn(files + [f], e, InMetadata)
    {
      OneMoreIn(files, f, e, Every);
      OneMoreIn(files, f, e, Ignored);
      OneMoreIn(files, f, e, InContent);
      OneMoreIn(files, f, e, InMetadata);
    }
  }

  lemma SameCounts(t: Tally, t': Tally, files: seq<File>)
    requires Counted(t, files) && t'.totals == t.totals && t'.breakdown == t.breakdown
    ensures Counted(t', files)
  {
    assert forall e :: CountsOf(t', e) == CountsOf(t, e);
  }

  lemma FailingCounted(tally: Tally, tally': Tally, files: seq<File>)
    requires Counted(tally, files) && OnlyFailing(tally, tally')
    ensures Counted(tally', files)
  {
  }

  /** What holds between two turns, after the files in `done`. */
  ghost predicate ScanState(source: nat, embed: Embedder, start: Tables, t: Tables, committed: Tables, tally: Tally,
                            pending: seq<Prepared>,
                            done: seq<File>, earlier: Option<Answers>, excess: nat)
  {
    && Sound(t) && Sound(committed) && AllCurrent(t, pending) && Accounted(tally, |pending| - excess)
    && 0 <= tally.totals.failed
    && tally.totals.seen == |done| && tally.totals.ignored == |done| - FilesKept(done) && Counted(tally, done)
    && Evolved(start, t, SeenKeys(done)) && Evolved(start, committed, SeenKeys(done))
    && PendingFrom(pending, done)
    && EarlierKnown(t, earlier) && StaleKeys(t, earlier) <= SeenKeys(done)
    && (DistinctFiles(done) ==>
          && DistinctKeys(pending)
          && (excess == 0 ==> AllInsertable(t, pending))
          && (tally.totals.failed == 0 ==> AllDone(source, embed, start, t, pending, done)))
  }

  lemma SeenKeysAppend(done: seq<File>, f: File)
    ensures SeenKeys(done + [f]) == SeenKeys(done) + if f.ignored then {} else {f.key}
    ensures DistinctFiles(done + [f]) ==> DistinctFiles(done) && (f.ignored || f.key !in SeenKeys(done))
  {
    var more := done + [f];
    assert more[|done|] == f;
    assert forall k :: 0 <= k < |done| ==> more[k] == done[k];
    assert DistinctFiles(more) && !f.ignored ==> forall k :: 0 <= k < |done| && !more[k].ignored ==> more[k].key != f.key;
  }

  lemma PendingKeysSeen(pending: seq<Prepared>, done: seq<File>)
    requires PendingFrom(pending, done)
    ensures KeySet(pending) <= SeenKeys(done)
  {
    forall key | key in KeySet(pending) ensures key in SeenKeys(done) {
      var k :| 0 <= k < |pending| && pending[k].key == key;
      assert pending[k] in pending;
      var f :| f in done && !f.ignored && Matches(pending[k], f);
      var j :| 0 <= j < |done| && done[j] == f;
      assert done[j].key in SeenKeys(done);
    }
  }

  lemma MembersHaveKeys(pending: seq<Prepared>)
    ensures forall item :: item in pending ==> item.key in KeySet(pending)
  {
    forall item | item in pending ensures item.key in KeySet(pending) {
      var k :| 0 <= k < |pending| && pending[k] == item;
      assert pending[k].key in KeySet(pending);
    }
  }

  lemma KeyHasItem(pending: seq<Prepared>, key: string) returns (item: Prepared)
    requires key in KeySet(pending)
    ensures item in pending && item.key == key
  {
    var k :| 0 <= k < |pending| && pending[k].key == key;
    item := pending[k];
  }

  /** Nothing done before the turn is undone by it, when the keys are distinct and nothing failed. */
  lemma DoneStays(source: nat, embed: Embedder, start: Tables, t: Tables, t': Tables, pending: seq<Prepared>,
                  pending': seq<Prepared>, f: File, g: File)
    requires FileDone(source, embed, start, t, pending, g) && g.key != f.key && DistinctKeys(pending)
    requires forall item :: item in pending' ==> item in pending || Matches(item, f)
    requires Evolved(t, t', KeySet(pending) + {f.key}) && NoneLost(source, embed, t, t', pending, pending', f)
    ensures FileDone(source, embed, start, t', pending', g)
  {
    hide IsText, Held, FileSettled, HasDigest, Evolved, KeySet, DistinctKeys, Done, Changed;
    MembersHaveKeys(pending);
    if g.key in KeySet(pending') {
      var other := KeyHasItem(pending', g.key);
      assert other in pending;
      if Waits(pending, g) {
        var item :| item in pending && Matches(item, g);
        SameKeySameItem(pending, item, other);
      }
    } else if Waits(pending, g) {
      var item :| item in pending && Matches(item, g);
      MembersHaveKeys(pending');
      WrittenIsDone(source, embed, start, t', item, g);
    } else {
      EvolvedKeepsKey(t, t', KeySet(pending) + {f.key}, g.key);
      DoneKept(source, embed, start, t, t', g);
    }
  }

  lemma WrittenIsDone(source: nat, embed: Embedder, start: Tables, t: Tables, item: Prepared, f: File)
    requires Changed(start, f) && Matches(item, f) && Held(t, source, embed, item)
    ensures Done(source, embed, start, t, f)
  {
    HeldIsIndexed(source, embed, t, item, f);
    hide Held, IsText, FileIndexed;
  }

  lemma PendingFromTurn(pending: seq<Prepared>, pending': seq<Prepared>, done: seq<File>, f: File)
    requires PendingFrom(pending, done) && !f.ignored
    requires forall item :: item in pending' ==> item in pending || Matches(item, f)
    ensures PendingFrom(pending', done + [f])
  {
    forall item | item in pending' ensures exists g :: g in done + [f] && !g.ignored && Matches(item, g) {
      if item in pending {
        var g :| g in done && !g.ignored && Matches(item, g);
        assert g in done + [f];
      } else {
        assert f in done + [f];
      }
    }
  }

  lemma StateAfterTurn(source: nat, embed: Embedder, start: Tables, t: Tables, committed: Tables, tally: Tally,
                       pending: seq<Prepared>, done: seq<File>, earlier: Option<Answers>, excess: nat, counted: Tally, t': Tables,
                       committed': Tables, tally': Tally, pending': seq<Prepared>, f: File, earlier': Option<Answers>,
                         excess': nat)
    requires ScanState(source, embed, start, t, committed, tally, pending, done, earlier, excess) && !f.ignored
    requires counted.totals.failed == tally.totals.failed
    requires counted.totals.seen == tally.totals.seen + 1 && counted.totals.ignored == tally.totals.ignored
    requires CountsChange(tally, counted, f.extension, f.mode, 1, 1, 0, 0)
    requires TurnTaken(source, embed, t, t', counted, tally', pending, pending', f, StaleKeys(t, earlier) + {f.key},
                       excess, excess')
    requires EarlierKnown(t, earlier') && StaleKeys(t, earlier') <= StaleKeys(t, earlier) + {f.key}
    requires committed' == committed || committed' == t'
    ensures ScanState(source, embed, start, t', committed', tally', pending', done + [f], earlier', excess')
  {
    hide Sound, Accounted, Evolved, DistinctKeys, AllCurrent, AllInsertable, KeySet, SeenKeys, DistinctFiles, FileDone, NoneLost,
      Matches, CountsChange, Counted, OnlyFailing;
    SeenKeysAppend(done, f);
    OneMoreKept(done, f);
    OneMoreCounted(tally, counted, tally', done, f);
    TotalsOf(counted, tally');
    PendingKeysSeen(pending, done);
    var stale := StaleKeys(t, earlier) + {f.key};
    EvolvedTransitive(start, t, t', SeenKeys(done), KeySet(pending) + {f.key} + stale);
    EvolvedWiden(start, t', SeenKeys(done) + (KeySet(pending) + {f.key} + stale), SeenKeys(done + [f]));
    EvolvedWiden(start, committed, SeenKeys(done), SeenKeys(done + [f]));
    EarlierStays(t, t', KeySet(pending) + {f.key} + stale, earlier');
    PendingFromTurn(pending, pending', done, f);
    if DistinctFiles(done + [f]) && tally'.totals.failed == 0 {
      AllDoneTurn(source, embed, start, t, t', pending, pending', done, f);
    }
  }

  lemma TotalsOf(t: Tally, t': Tally)
    requires OnlyFailing(t, t')
    ensures t'.totals.seen == t.totals.seen && t'.totals.ignored == t.totals.ignored
  {
    assert CountsOf(t', None) == t'.totals && CountsOf(t, None) == t.totals;
  }

  lemma EarlierStays(t: Tables, t': Tables, keys: set<string>, earlier: Option<Answers>)
    requires Evolved(t, t', keys) && EarlierKnown(t, earlier)
    ensures EarlierKnown(t', earlier) && StaleKeys(t', earlier) == StaleKeys(t, earlier)
  {
    hide ChunksEvolved;
  }

  lemma AllDoneTurn(source: nat, embed: Embedder, start: Tables, t: Tables, t': Tables, pending: seq<Prepared>,
                    pending': seq<Prepared>, done: seq<File>, f: File)
    requires DistinctKeys(pending) && DistinctFiles(done + [f]) && !f.ignored
    requires AllDone(source, embed, start, t, pending, done) && Evolved(start, t, SeenKeys(done))
    requires forall item :: item in pending' ==> item in pending || Matches(item, f)
    requires Evolved(t, t', KeySet(pending) + {f.key}) && NoneLost(source, embed, t, t', pending, pending', f)
    ensures AllDone(source, embed, start, t', pending', done + [f])
  {
    SeenKeysAppend(done, f);
    hide Evolved, DistinctKeys, DistinctFiles, KeySet, Matches, Held, Done, Changed, Waits;
    forall g | g in done + [f] && !g.ignored ensures FileDone(source, embed, start, t', pending', g) {
      if g in done {
        var k :| 0 <= k < |done| && done[k] == g;
        assert done[k].key in SeenKeys(done);
        DoneStays(source, embed, start, t, t', pending, pending', f, g);
      } else {
        EvolvedKeepsKey(start, t, SeenKeys(done), f.key);
        SameFromStart(start, t, f);
        if Done(source, embed, t, t', f) { DoneFromStart(source, embed, start, t, t', f); }
      }
    }
  }

  lemma StateAfterIgnored(source: nat, embed: Embedder, start: Tables, t: Tables, committed: Tables, tally: Tally,
                          pending: seq<Prepared>,
                          done: seq<File>, earlier: Option<Answers>, excess: nat, tally': Tally, f: File)
    requires ScanState(source, embed, start, t, committed, tally, pending, done, earlier, excess) && f.ignored
    requires Accounted(tally', |pending| - excess) && tally'.totals.failed == tally.totals.failed
    requires tally'.totals.seen == tally.totals.seen + 1 && tally'.totals.ignored == tally.totals.ignored + 1
    requires CountsChange(tally, tally', f.extension, f.mode, 1, 0, 1, 0)
    ensures ScanState(source, embed, start, t, committed, tally', pending, done + [f], earlier, excess)
  {
    OneMoreCounted(tally, tally', tally', done, f);
    SeenKeysAppend(done, f);
    OneMoreKept(done, f);
    PendingFromMore(pending, done, f);
    DoneMore(source, embed, start, t, pending, done, f);
    hide Sound, Accounted, Evolved, AllCurrent, AllInsertable, CountsChange, Counted, AllDone, PendingFrom, SeenKeys,
      DistinctFiles, DistinctKeys;
    EvolvedWiden(start, t, SeenKeys(done), SeenKeys(done + [f]));
    EvolvedWiden(start, committed, SeenKeys(done), SeenKeys(done + [f]));
  }

  lemma PendingFromMore(pending: seq<Prepared>, done: seq<File>, f: File)
    requires PendingFrom(pending, done)
    ensures PendingFrom(pending, done + [f])
  {
    hide Matches;
    assert forall g :: g in done ==> g in done + [f];
  }

  lemma DoneMore(source: nat, embed: Embedder, start: Tables, t: Tables, pending: seq<Prepared>, done: seq<File>, f: File)
    requires f.ignored
    ensures AllDone(source, embed, start, t, pending, done) ==> AllDone(source, embed, start, t, pending, done + [f])
  {
    hide FileDone;
    assert forall g :: g in done + [f] && !g.ignored ==> g in done;
  }

  function FilesKept(files: seq<File>): nat {
    if files == [] then 0 else FilesKept(files[..|files| - 1]) + if files[|files| - 1].ignored then 0 else 1
  }

  /** Documents are never lost: each is still there under its own key. */
  ghost predicate NothingDeleted(t: Tables, t': Tables) {
    forall d :: d in t.documents ==> d in t'.documents && t'.documents[d].key == t.documents[d].key
  }

  lemma StateMeans(source: nat, embed: Embedder, start: Tables, t: Tables, committed: Tables, tally: Tally,
                   pending: seq<Prepared>, done: seq<File>,
                   earlier: Option<Answers>, excess: nat)
    requires ScanState(source, embed, start, t, committed, tally, pending, done, earlier, excess)
    ensures Sound(t) && Sound(committed) && AllCurrent(t, pending) && Accounted(tally, |pending| - excess)
    ensures NothingDeleted(start, t) && NothingDeleted(start, committed) && t.sources == committed.sources == start.sources
    ensures tally.totals.seen == |done| && tally.totals.ignored == |done| - FilesKept(done)
    ensures EarlierKnown(t, earlier) && Counted(tally, done)
    ensures DistinctFiles(done) && excess == 0 ==> DistinctKeys(pending) && AllInsertable(t, pending)
  {
    hide Sound, Accounted;
  }

  /** A file under a new key finds the batch ready to take it. */
  lemma FileIsNew(source: nat, embed: Embedder, start: Tables, t: Tables, committed: Tables, tally: Tally,
                  pending: seq<Prepared>, done: seq<File>,
                  earlier: Option<Answers>, f: File)
    requires ScanState(source, embed, start, t, committed, tally, pending, done, earlier, 0) && !f.ignored
      && DistinctFiles(done + [f])
    ensures DistinctKeys(pending) && f.key !in KeySet(pending) && AllInsertable(t, pending)
  {
    hide Sound, Accounted, Evolved, AllCurrent, AllInsertable, KeySet, SeenKeys, DistinctFiles, DistinctKeys;
    SeenKeysAppend(done, f);
    PendingKeysSeen(pending, done);
  }

  /** Nothing has changed yet, and every file so far was found unchanged. */
  ghost predicate Untouched(start: Tables, t: Tables, tally: Tally, pending: seq<Prepared>, done: seq<File>) {
    t == start && pending == [] && tally.kept == FilesKept(done) && tally.totals.failed == 0
  }

  ghost predicate NothingCounted(tally: Tally) {
    tally == Tally(NO_COUNTS, map[], 0, 0, 0, 0, 0, 0)
  }

  lemma StateAtStart(source: nat, embed: Embedder, t: Tables, tally: Tally)
    requires Sound(t) && NothingCounted(tally)
    ensures ScanState(source, embed, t, t, t, tally, [], [], None, 0) && Untouched(t, t, tally, [], []) && SeenKeys([]) == {}
  {
    hide Sound, Accounted, Evolved;
    NoneCounted(tally);
    EvolvedNothing(t);
    NothingAccounted();
  }

  lemma OneMoreKept(done: seq<File>, f: File)
    ensures FilesKept(done + [f]) == FilesKept(done) + if f.ignored then 0 else 1
  {
    assert (done + [f])[..|done|] == done;
  }

  /** What the turns of a scan carry from one to the next. */
  datatype Progress = Progress(pending: seq<Prepared>, waiting: int, earlier: Option<Answers>, seen: set<string>)

  /** One turn of the loop of `scan_source`. */
  method TakeTurn(con: Connection, source: nat, f: File, embed: Embedder, batch: int, result: ScanResult, p: Progress,
                  ghost start: Tables, ghost done: seq<File>, ghost excess: nat)
    returns (p': Progress, ok: bool, ghost excess': nat)
    requires source in con.tables.sources && p.seen == SeenKeys(done)
    requires ScanState(source, embed, start, con.tables, con.committed, result.tally, p.pending, done, p.earlier, excess)
    modifies con, result
    ensures p'.seen == SeenKeys(done + [f])
    ensures ok ==> ScanState(source, embed, start, con.tables, con.committed, result.tally, p'.pending, done + [f],
                             p'.earlier, excess')
    ensures !ok ==> con.committed == old(con.committed)
    ensures con.Faultless() ==> (ok <==> f.ignored || f.reachable || Survivable(old(con.tables), f, p.earlier))
    ensures f.ignored ==> con.tables == old(con.tables)
    ensures ok && !f.ignored && f.reachable ==> Evolved(old(con.tables), con.tables, KeySet(p.pending) + {f.key})
    ensures ok && !f.ignored && !f.reachable ==>
              && KeptByStaleAnswers(old(con.tables), con.tables, source, f, p.earlier)
              && result.tally.totals.failed == old(result.tally).totals.failed + 1
    ensures p'.earlier == if f.ignored then p.earlier else EarlierAfter(old(con.tables), f, p.earlier)
    ensures AnswersFor(old(con.tables), f, p.earlier, p'.earlier)
    ensures ok && !f.ignored && (excess' > excess || (con.Faultless() && Unreadable(old(con.tables), f))) ==>
              LeftByName(old(con.tables), con.tables, source, f)
    ensures Batch(p'.pending, p'.waiting, result.calls, excess')
            == var b := Batch(p.pending, p.waiting, old(result.calls), excess);
               if f.ignored then b else NextBatch(b, old(con.tables), f, embed, batch)
    ensures excess <= excess' && result.failures == old(result.failures) + (if excess' > excess then 1 else 0)
    ensures BackendUp(embed) ==> excess' == excess
    ensures con.Faultless() && Reliable(embed) && Readable(f) && DistinctFiles(done + [f]) && excess == 0 ==>
              ok && result.tally.totals.failed == old(result.tally).totals.failed
    ensures con.Faultless() && !f.ignored && OnlyTouched(old(con.tables), f) ==>
              && TextKept(old(con.tables), con.tables) && RowTouched(old(con.tables), con.tables, source, f)
              && ok && p'.pending == p.pending && result.tally.kept == old(result.tally).kept + 1
    ensures Untouched(start, old(con.tables), old(result.tally), p.pending, done) && (f.ignored || FileSettled(start, f)) ==>
              ok && Untouched(start, con.tables, result.tally, p'.pending, done + [f]) && excess' == excess
  {
    hide ScanState, SeenKeys, FileSettled, Classified, DistinctFiles, Reliable, NextBatch, EarlierAfter, EarlierKnown,
      KeptByStaleAnswers, Survivable, Sound, Evolved, KeySet, OnlyTouched, TextKept, RowTouched, AnswersFor, LeftByName,
        Unreadable;
    StateMeans(source, embed, start, con.tables, con.committed, result.tally, p.pending, done, p.earlier, excess);
    EarlierIs(con.tables, f, p.earlier);
    SeenKeysAppend(done, f);
    OneMoreKept(done, f);
    if f.ignored {
      SkipFile(con, source, embed, f, result, p.pending, start, done, p.earlier, excess);
      p', ok, excess' := p, true, excess;
    } else {
      var pending', waiting', earlier';
      pending', waiting', earlier', ok, excess' :=
        TakeFile(con, source, f, embed, batch, result, p.pending, p.waiting, p.earlier, start, done, excess);
      p' := Progress(pending', waiting', earlier', p.seen + {f.key});
    }
  }

  method SkipFile(con: Connection, ghost source: nat, ghost embed: Embedder, f: File, result: ScanResult,
                  ghost pending: seq<Prepared>, ghost start: Tables,
                  ghost done: seq<File>, ghost earlier: Option<Answers>, ghost excess: nat)
    requires f.ignored && ScanState(source, embed, start, con.tables, con.committed, result.tally, pending, done, earlier, excess)
    modifies result`tally
    ensures ScanState(source, embed, start, con.tables, con.committed, result.tally, pending, done + [f], earlier, excess)
    ensures result.tally.kept == old(result.tally).kept && result.tally.totals.failed == old(result.tally).totals.failed
  {
    hide *;
    ghost var tally := result.tally;
    result.tally := Count(result.tally, f.extension, Seen());
    result.tally := Count(result.tally, f.extension, Skipped()).(completed := result.tally.completed + 1);
    IgnoredTurn(source, embed, start, con.tables, con.committed, tally, pending, done, earlier, excess, result.tally, f);
  }

  lemma IgnoredTurn(source: nat, embed: Embedder, start: Tables, t: Tables, committed: Tables, tally: Tally,
                    pending: seq<Prepared>, done: seq<File>,
                    earlier: Option<Answers>, excess: nat, tally': Tally, f: File)
    requires f.ignored && ScanState(source, embed, start, t, committed, tally, pending, done, earlier, excess)
    requires tally' == Count(Count(tally, f.extension, Seen()), f.extension, Skipped()).(completed := tally.completed + 1)
    ensures ScanState(source, embed, start, t, committed, tally', pending, done + [f], earlier, excess)
    ensures tally'.kept == tally.kept && tally'.totals.failed == tally.totals.failed
  {
    hide *;
    StateMeans(source, embed, start, t, committed, tally, pending, done, earlier, excess);
    IgnoredCounts(tally, f);
    OneIsBalanced(Skipped());
    CountCompletes(tally, |pending| - excess, f.extension, Skipped(), tally');
    StateAfterIgnored(source, embed, start, t, committed, tally, pending, done, earlier, excess, tally', f);
  }

  lemma FileCounts(t: Tally, extension: string, mode: Mode, c: Counts, classified: int, completed: int)
    requires c.seen == 0 && c.failed == 0
    requires c.content == if mode == Content then classified else 0
    requires c.metadata == if mode == Metadata then classified else 0
    ensures CountsChange(t, Count(Count(t, extension, Seen()), extension, c).(completed := completed), extension, mode,
                         1, classified, c.ignored, 0)
  {
    CountTwice(t, extension, Seen(), c);
    var sum := Seen().Plus(c);
    assert sum.seen == 1 && sum.content == c.content && sum.metadata == c.metadata && sum.ignored == c.ignored && sum.failed == 0;
    hide AddTo, CountsChange;
    CountMeans(t, extension, sum, completed, mode, classified);
  }

  lemma IgnoredCounts(t: Tally, f: File)
    ensures CountsChange(t, Count(Count(t, f.extension, Seen()), f.extension, Skipped()).(completed := t.completed + 1),
                         f.extension, f.mode, 1, 0, 1, 0)
  {
    assert Skipped().content == 0 && Skipped().metadata == 0;
    hide *;
    FileCounts(t, f.extension, f.mode, Skipped(), 0, t.completed + 1);
  }

  lemma ClassifiedCounts(t: Tally, f: File)
    ensures CountsChange(t, Count(Count(t, f.extension, Seen()), f.extension, Classified(f.mode)), f.extension, f.mode,
                         1, 1, 0, 0)
  {
    assert Classified(f.mode).content == if f.mode == Content then 1 else 0;
    assert Classified(f.mode).metadata == if f.mode == Metadata then 1 else 0;
    hide *;
    FileCounts(t, f.extension, f.mode, Classified(f.mode), 1, t.completed);
  }

  method TakeFile(con: Connection, source: nat, f: File, embed: Embedder, batch: int, result: ScanResult,
                  pending: seq<Prepared>, waiting: int, earlier: Option<Answers>, ghost start: Tables, ghost done: seq<File>,
                  ghost excess: nat)
    returns (pending': seq<Prepared>, waiting': int, earlier': Option<Answers>, ok: bool, ghost excess': nat)
    requires source in con.tables.sources && !f.ignored
    requires ScanState(source, embed, start, con.tables, con.committed, result.tally, pending, done, earlier, excess)
    modifies con, result
    ensures ok ==> ScanState(source, embed, start, con.tables, con.committed, result.tally, pending', done + [f],
                             earlier', excess')
    ensures !ok ==> con.committed == old(con.committed)
    ensures con.Faultless() ==> (ok <==> f.reachable || Survivable(old(con.tables), f, earlier))
    ensures ok && f.reachable ==> Evolved(old(con.tables), con.tables, KeySet(pending) + {f.key})
    ensures ok && !f.reachable ==>
              && KeptByStaleAnswers(old(con.tables), con.tables, source, f, earlier)
              && result.tally.totals.failed == old(result.tally).totals.failed + 1
    ensures earlier' == EarlierAfter(old(con.tables), f, earlier)
    ensures ok && (excess' > excess || (con.Faultless() && Unreadable(old(con.tables), f))) ==>
              LeftByName(old(con.tables), con.tables, source, f)
    ensures Batch(pending', waiting', result.calls, excess')
            == NextBatch(Batch(pending, waiting, old(result.calls), excess), old(con.tables), f, embed, batch)
    ensures excess <= excess' && result.failures == old(result.failures) + (if excess' > excess then 1 else 0)
    ensures BackendUp(embed) ==> excess' == excess
    ensures con.Faultless() && Reliable(embed) && Readable(f) && DistinctFiles(done + [f]) && excess == 0 ==>
              ok && result.tally.totals.failed == old(result.tally).totals.failed
    ensures con.Faultless() && OnlyTouched(old(con.tables), f) ==>
              && TextKept(old(con.tables), con.tables) && RowTouched(old(con.tables), con.tables, source, f)
              && ok && pending' == pending && result.tally.kept == old(result.tally).kept + 1
    ensures FileSettled(old(con.tables), f) ==>
              && ok && con.tables == old(con.tables) && pending' == pending && excess' == excess
              && result.tally.kept == old(result.tally).kept + 1
              && result.tally.totals.failed == old(result.tally).totals.failed
  {
    hide ScanState, Sound, Accounted, AllCurrent, FileSettled, TurnTaken, Count, Classified, DistinctFiles, DistinctKeys, KeySet,
      AllInsertable, Reliable, EarlierKnown, StaleKeys, NextBatch, EarlierAfter, KeptByStaleAnswers,
      Survivable, Evolved, OnlyTouched, TextKept, RowTouched, LeftByName, Unreadable, CountsChange;
    ghost var t, committed, tally := con.tables, con.committed, result.tally;
    if DistinctFiles(done + [f]) && excess == 0 {
      FileIsNew(source, embed, start, t, committed, tally, pending, done, earlier, f);
    }
    StateMeans(source, embed, start, t, committed, tally, pending, done, earlier, excess);
    ClassifiedOnce(f.mode);
    OneIsBalanced(Classified(f.mode));
    CountOpens(tally, |pending| - excess, f.extension, Classified(f.mode));
    ClassifiedCounts(tally, f);
    result.tally := Count(result.tally, f.extension, Seen());
    result.tally := Count(result.tally, f.extension, Classified(f.mode));
    ghost var counted := result.tally;
    pending', waiting', earlier', ok, excess' :=
      ProcessFile(con, source, f, embed, batch, result, pending, waiting, earlier, excess);
    if ok {
      StateAfterTurn(source, embed, start, t, committed, tally, pending, done, earlier, excess, counted, con.tables,
                     con.committed,
                     result.tally, pending', f, earlier', excess');
    }
  }

  lemma UpToDateAt(t: Tables, source: nat, files: seq<File>, i: nat)
    requires i < |files|
    ensures UpToDate(t, source, files) ==> files[i].ignored || FileSettled(t, files[i])
  {
  }

  /** After the last flush of a scan without failures every file it has seen is done. */
  lemma StateAfterFlush(source: nat, embed: Embedder, start: Tables, t: Tables, committed: Tables, tally: Tally,
                        pending: seq<Prepared>, done: seq<File>, earlier: Option<Answers>, excess: nat, t': Tables, tally': Tally)
    requires ScanState(source, embed, start, t, committed, tally, pending, done, earlier, excess)
    requires Evolved(t, t', KeySet(pending)) && SameScan(tally, tally')
    requires tally'.totals.failed == tally.totals.failed && DistinctKeys(pending) ==> AllHeld(t', source, embed, pending)
    ensures NothingDeleted(start, t') && t'.sources == t.sources && Counted(tally', done)
    ensures DistinctFiles(done) && tally'.totals.failed == 0 ==>
              forall f :: f in done && !f.ignored ==> Done(source, embed, start, t', f)
  {
    hide Sound, Accounted, OnlyFailing, Counted, Matches, Held, Done, Changed, ChunksEvolved, FileDone, KeySet;
    FailingCounted(tally, tally', done);
    if DistinctFiles(done) && tally'.totals.failed == 0 {
      forall f | f in done && !f.ignored ensures Done(source, embed, start, t', f) {
        assert FileDone(source, embed, start, t, pending, f);
        DoneAfterFlush(source, embed, start, t, t', pending, f);
      }
    }
  }

  lemma DoneAfterFlush(source: nat, embed: Embedder, start: Tables, t: Tables, t': Tables, pending: seq<Prepared>, f: File)
    requires FileDone(source, embed, start, t, pending, f)
    requires Evolved(t, t', KeySet(pending)) && AllHeld(t', source, embed, pending)
    ensures Done(source, embed, start, t', f)
  {
    hide Matches, Held, Done, Changed, Evolved, KeySet;
    if f.key !in KeySet(pending) && Done(source, embed, start, t, f) {
      EvolvedKeepsKey(t, t', KeySet(pending), f.key);
      DoneKept(source, embed, start, t, t', f);
    } else {
      var item :| item in pending && Matches(item, f);
      WrittenIsDone(source, embed, start, t', item, f);
    }
  }

  ghost predicate EachDone(source: nat, embed: Embedder, t: Tables, t': Tables, files: seq<File>) {
    forall k :: 0 <= k < |files| && !files[k].ignored ==> Done(source, embed, t, t', files[k])
  }

  /** What was seen is left alone by the deletions. */
  lemma SeenIsSpared(t: Tables, t': Tables, source: nat, seen: set<string>, key: string)
    requires t'.documents == t.documents - Orphans(t, source, seen) && key in seen
    requires ChunksSpared(t, t', Orphans(t, source, seen)) && NoNewChunks(t, t')
    ensures KeyKept(t, t', key)
  {
    forall c ensures (ChunkUnder(t, c, key) <==> ChunkUnder(t', c, key)) && (ChunkUnder(t, c, key) ==> RowKept(t, t', c)) {
      if ChunkUnder(t, c, key) { assert RowKept(t, t', c); }
    }
  }

  /** Reconciliation leaves the source with documents of seen files only, and those untouched. */
  lemma AfterReconcile(embed: Embedder, start: Tables, t: Tables, t': Tables, source: nat, files: seq<File>)
    requires t'.documents == t.documents - Orphans(t, source, SeenKeys(files))
    requires ChunksSpared(t, t', Orphans(t, source, SeenKeys(files))) && NoNewChunks(t, t')
    ensures forall d :: d in t'.documents && t'.documents[d].source == source ==> t'.documents[d].key in SeenKeys(files)
    ensures (forall f :: f in files && !f.ignored ==> Done(source, embed, start, t, f)) ==>
              EachDone(source, embed, start, t', files) && UpToDate(t', source, files)
  {
    hide Done, FileSettled, ChunksSpared, NoNewChunks, KeyKept;
    if forall f :: f in files && !f.ignored ==> Done(source, embed, start, t, f) {
      forall k | 0 <= k < |files| && !files[k].ignored
        ensures Done(source, embed, start, t', files[k]) && FileSettled(t', files[k])
      {
        var f := files[k];
        assert f in files && f.key in SeenKeys(files);
        SeenIsSpared(t, t', source, SeenKeys(files), f.key);
        DoneKept(source, embed, start, t, t', f);
        DoneSettles(source, embed, start, t', f);
      }
    }
  }

  lemma NoOrphans(t: Tables, source: nat, files: seq<File>)
    requires UpToDate(t, source, files)
    ensures Orphans(t, source, SeenKeys(files)) == {}
  {
  }

  /**
   * The end of `scan_source`: the last flush, then, only if nothing was missed, the deletions.  If the backend
   * fails in the last flush, `ok` is false and nothing has been done.
   */
  method FinishScan(con: Connection, source: nat, files: seq<File>, missed: bool, embed: Embedder, result: ScanResult,
                    p: Progress, ghost start: Tables, ghost done: seq<File>, ghost excess: nat)
    returns (complete: bool, ok: bool)
    requires p.seen == SeenKeys(done) && (!missed ==> done == files)
    requires ScanState(source, embed, start, con.tables, con.committed, result.tally, p.pending, done, p.earlier, excess)
    requires UpToDate(start, source, files) ==> Untouched(start, con.tables, result.tally, p.pending, done)
    modifies con, result
    ensures !ok ==> !complete && con.committed == old(con.committed) && !BackendUp(embed) && !UpToDate(start, source, files)
    ensures ok ==> complete == !missed && Sound(con.tables)
    ensures ok ==> Accounted(result.tally, 0 - excess) && result.tally.totals.Balanced()
    ensures ok ==> result.tally.totals.seen == |done| && result.tally.totals.ignored == |done| - FilesKept(done)
    ensures ok ==> Counted(result.tally, done)
    ensures ok <==> p.pending == [] || Bisect(p.pending, embed, old(result.calls)).ok
    ensures result.failures == old(result.failures) + if ok then 0 else 1
    ensures ok ==> con.tables.sources == old(con.tables).sources
    ensures p.pending == [] && complete ==>
              && con.tables.documents == old(con.tables).documents - Orphans(old(con.tables), source, p.seen)
              && NoNewChunks(old(con.tables), con.tables)
              && result.tally.totals.failed == old(result.tally).totals.failed
    ensures ok && !complete ==> NothingDeleted(start, con.tables)
    ensures complete ==> forall d :: d in con.tables.documents && con.tables.documents[d].source == source ==>
                           con.tables.documents[d].key in SeenKeys(files)
    ensures complete && DistinctFiles(files) && result.tally.totals.failed == 0 ==>
              EachDone(source, embed, start, con.tables, files) && UpToDate(con.tables, source, files)
    ensures con.Faultless() && Reliable(embed) && source in old(con.tables).sources && DistinctFiles(done) && excess == 0 ==>
              ok && result.tally.totals.failed == old(result.tally).totals.failed
    ensures UpToDate(start, source, files) ==> con.tables == start && result.tally.kept == FilesKept(done)
  {
    hide Sound, Evolved, ScanState, UpToDate, SeenKeys, DistinctFiles, DistinctKeys, FileSettled, NothingDeleted,
      Orphans, AllHeld, KeySet, Sum, AllCurrent, AllInsertable, Reliable, Bisect, NoNewChunks, ChunksSpared, Landed, OnlyFailing,
      Counted, EachDone, Done;
    ghost var t, committed, tally := con.tables, con.committed, result.tally;
    StateMeans(source, embed, start, t, committed, tally, p.pending, done, p.earlier, excess);
    ghost var lost;
    ok, lost := con.Flush(source, p.pending, embed, result, |p.pending| - excess);
    if !ok {
      return false, ok;
    }
    StateAfterFlush(source, embed, start, t, committed, tally, p.pending, done, p.earlier, excess, con.tables, result.tally);
    TotalsBalanced(result.tally, 0 - excess);
    complete := !missed;
    if complete {
      ghost var flushed := con.tables;
      if UpToDate(start, source, files) { NoOrphans(start, source, files); }
      ghost var tally' := result.tally;
      Reconcile(con, source, p.seen, result);
      SameCounts(tally', result.tally, done);
      AfterReconcile(embed, start, flushed, con.tables, source, files);
      con.Commit();
    }
  }

  /**
   * Every file of a complete scan is completed once: `excess` counts those the backend made completed twice.  With every
   * extension the files of a group that are not counted in it are the failed ones.
   */
  ghost predicate Complete(result: Tally, files: seq<File>, excess: nat) {
    && result.totals.seen == |files| && result.totals.ignored == |files| - FilesKept(files)
    && result.completed == |files| + excess
    && Counted(result, files) && FailuresCounted(result, files)
  }

  ghost predicate FailuresCountedAt(result: Tally, files: seq<File>, e: Option<string>) {
    var c := CountsOf(result, e);
    c.failed == FilesIn(files, e, InContent) - c.content + FilesIn(files, e, InMetadata) - c.metadata
  }

  ghost predicate FailuresCounted(result: Tally, files: seq<File>) {
    forall e :: FailuresCountedAt(result, files, e)
  }

  lemma {:induction false} GroupsSplit(files: seq<File>, e: Option<string>)
    ensures FilesIn(files, e, Every) == FilesIn(files, e, Ignored) + FilesIn(files, e, InContent) + FilesIn(files, e, InMetadata)
  {
    if files != [] { GroupsSplit(files[..|files| - 1], e); }
  }

  lemma FailuresAre(t: Tally, open: int, files: seq<File>)
    requires Accounted(t, open) && Counted(t, files)
    ensures FailuresCounted(t, files)
  {
    hide *;
    forall e ensures FailuresCountedAt(t, files, e) {
      CountsAreBalanced(t, open, e);
      FailuresAt(t, files, e);
    }
    AllFailuresCounted(t, files);
  }

  lemma AllFailuresCounted(t: Tally, files: seq<File>)
    requires forall e :: FailuresCountedAt(t, files, e)
    ensures FailuresCounted(t, files)
  {
    hide FailuresCountedAt;
  }

  lemma CountsAreBalanced(t: Tally, open: int, e: Option<string>)
    requires Accounted(t, open)
    ensures CountsOf(t, e).Balanced()
  {
    TotalsBalanced(t, open);
    assert e.Some? && e.value in t.breakdown ==> t.breakdown[e.value].Balanced();
    hide Accounted, Sum;
  }

  lemma FailuresAt(t: Tally, files: seq<File>, e: Option<string>)
    requires CountsOf(t, e).Balanced() && Counted(t, files)
    ensures FailuresCountedAt(t, files, e)
  {
    hide CountsOf, FilesIn;
    GroupsSplit(files, e);
  }

  lemma NothingScanned(t: Tables, tally: Tally, open: int)
    requires open == 0 && NothingCounted(tally)
    ensures Accounted(tally, open) && tally.totals.Balanced() && NothingDeleted(t, t)
  {
    NothingAccounted();
  }

  /** Every file can be read, the backend always answers, and no statement fails. */
  ghost predicate Healthy(con: Connection, files: seq<File>, embed: Embedder) {
    con.Faultless() && Reliable(embed) && DistinctFiles(files) && AllReadable(files)
  }

  /** The loop of `scan_source`; it ends after `n` files, or with an exception. */
  method TakeTurns(con: Connection, source: nat, files: seq<File>, shouldStop: nat -> bool, enabled: nat -> bool,
                   embed: Embedder, batch: int, result: ScanResult, ghost start: Tables)
    returns (p: Progress, n: nat, disabled: bool, ok: bool, ghost excess: nat)
    requires source in start.sources
    requires ScanState(source, embed, start, con.tables, con.committed, result.tally, [], [], None, 0)
    requires Untouched(start, con.tables, result.tally, [], [])
    modifies con, result
    ensures n <= |files| && p.seen == SeenKeys(files[..n])
    ensures forall k: nat :: k < n ==> enabled(k)
    ensures ok ==> if disabled then n < |files| && !enabled(n) else n == |files| || shouldStop(n)
    ensures ok ==> ScanState(source, embed, start, con.tables, con.committed, result.tally, p.pending, files[..n],
                             p.earlier, excess)
    ensures !ok ==> Sound(con.committed) && NothingDeleted(start, con.committed) && con.committed.sources == start.sources
    ensures !ok ==> !con.Faultless() || !AllReadable(files)
    ensures BackendUp(embed) ==> excess == 0
    ensures old(result.failures) <= result.failures <= old(result.failures) + excess
    ensures excess == 0 <==> result.failures == old(result.failures)
    ensures Healthy(con, files, embed) ==> ok && result.tally.totals.failed == 0
    ensures UpToDate(start, source, files) ==> ok && Untouched(start, con.tables, result.tally, p.pending, files[..n])
  {
    hide Sound, ScanState, UpToDate, SeenKeys, DistinctFiles, Reliable, BackendUp, NothingDeleted, FileSettled, NextBatch,
      EarlierAfter, KeptByStaleAnswers, Survivable, Evolved, KeySet, OnlyTouched, TextKept, RowTouched;
    p, n, disabled, ok, excess := Progress([], 0, None, {}), 0, false, true, 0;
    assert p.seen == SeenKeys(files[..0]) by { NothingSeen(files); }
    assert files[..0] == [];
    while n < |files|
      invariant 0 <= n <= |files| && p.seen == SeenKeys(files[..n]) && ok && !disabled
      invariant forall k: nat :: k < n ==> enabled(k)
      invariant BackendUp(embed) ==> excess == 0
      invariant old(result.failures) <= result.failures <= old(result.failures) + excess
      invariant excess == 0 <==> result.failures == old(result.failures)
      invariant Healthy(con, files, embed) ==> result.tally.totals.failed == 0
      invariant ScanState(source, embed, start, con.tables, con.committed, result.tally, p.pending, files[..n], p.earlier, excess)
      invariant UpToDate(start, source, files) ==> Untouched(start, con.tables, result.tally, p.pending, files[..n])
    {
      if shouldStop(n) {
        return;
      }
      if !enabled(n) {
        disabled := true;
        return;
      }
      StateMeans(source, embed, start, con.tables, con.committed, result.tally, p.pending, files[..n], p.earlier, excess);
      assert files[..n + 1] == files[..n] + [files[n]];
      UpToDateAt(start, source, files, n);
      DistinctPrefix(files, n + 1);
      ReliableIsUp(embed);
      var p';
      p', ok, excess := TakeTurn(con, source, files[n], embed, batch, result, p, start, files[..n], excess);
      if !ok {
        return;
      }
      p, n := p', n + 1;
    }
  }

  lemma NothingSeen(files: seq<File>)
    ensures SeenKeys(files[..0]) == {}
  {
  }

  /**
   * `scan_source`.  `available` is whether the root could be opened, `enumerated` whether every directory under it
   * could be listed, `shouldStop` and `enabled` the answers to the two questions asked at every turn; a request to
   * stop stays in force.  `excess` counts the files that a failure of the backend inside the loop made completed
   * although they stayed in the batch.
   */
  method ScanSource(con: Connection, source: nat, files: seq<File>, available: bool, enumerated: bool,
                    shouldStop: nat -> bool, enabled: nat -> bool, embed: Embedder, batch: int, result: ScanResult)
    returns (complete: bool, aborted: bool, ghost excess: nat)
    requires Sound(con.tables) && source in con.tables.sources
    requires NothingCounted(result.tally)
    requires forall i: nat, j: nat :: i <= j && shouldStop(i) ==> shouldStop(j)
    modifies con, result
    ensures Sound(con.tables) && con.committed == con.tables && con.tables.sources == old(con.tables).sources
    ensures !aborted ==> Accounted(result.tally, 0 - excess) && result.tally.totals.Balanced()
    ensures BackendUp(embed) ==> excess == 0
    ensures old(result.failures) <= result.failures
    ensures !aborted ==>
              && result.failures <= old(result.failures) + excess
              && (excess == 0 <==> result.failures == old(result.failures))
    ensures !complete ==> NothingDeleted(old(con.tables), con.tables)
    ensures aborted ==> !con.Faultless() || !BackendUp(embed) || !AllReadable(files)
    ensures aborted && con.Faultless() && AllReadable(files) ==> result.failures > old(result.failures)
    ensures complete <==>
              available && enumerated && !aborted && !shouldStop(|files|) && forall i: nat :: i < |files| ==> enabled(i)
    ensures complete ==> Complete(result.tally, files, excess)
    ensures complete ==> forall d :: d in con.tables.documents && con.tables.documents[d].source == source ==>
                           con.tables.documents[d].key in SeenKeys(files)
    ensures complete && DistinctFiles(files) && result.tally.totals.failed == 0 ==>
              EachDone(source, embed, old(con.tables), con.tables, files) && UpToDate(con.tables, source, files)
    ensures Healthy(con, files, embed) ==> !aborted && result.tally.totals.failed == 0
    ensures UpToDate(old(con.tables), source, files) ==> con.tables == old(con.tables) && !aborted
    ensures UpToDate(old(con.tables), source, files) && complete ==> result.tally.kept == FilesKept(files)
  {
    hide Sound, Accounted, Evolved, ScanState, UpToDate, SeenKeys, DistinctFiles, FileSettled, Reliable, Readable,
      NothingCounted, EachDone, Done, Counted, FailuresCounted, Complete, NothingDeleted, AllReadable, EarlierKnown;
    complete, aborted, excess := false, false, 0;
    ghost var start := con.tables;
    con.Commit();
    assert con.tables == start;
    StateAtStart(source, embed, start, result.tally);
    if !available {
      NothingScanned(start, result.tally, 0 - excess);
      return;
    }
    var p, n, disabled, ok;
    p, n, disabled, ok, excess := TakeTurns(con, source, files, shouldStop, enabled, embed, batch, result, start);
    if ok {
      var missed := !enumerated || shouldStop(|files|) || disabled;
      assert n == |files| ==> files[..n] == files;
      DistinctPrefix(files, n);
      ReliableIsUp(embed);
      StateMeans(source, embed, start, con.tables, con.committed, result.tally, p.pending, files[..n], p.earlier, excess);
      complete, ok := FinishScan(con, source, files, missed, embed, result, p, start, files[..n], excess);
    }
    if !ok {
      con.Rollback();
      aborted := true;
      return;
    }
    con.Commit();
    if complete { CompleteIs(result.tally, files, excess); }
  }

  lemma AllCompleted(t: Tally, excess: nat)
    requires Accounted(t, 0 - excess)
    ensures t.completed == t.totals.seen + excess
  {
  }

  lemma CompleteIs(t: Tally, files: seq<File>, excess: nat)
    requires Accounted(t, 0 - excess) && Counted(t, files)
    requires t.totals.seen == |files| && t.totals.ignored == |files| - FilesKept(files)
    ensures Complete(t, files, excess)
  {
    FailuresAre(t, 0 - excess, files);
    AllCompleted(t, excess);
    hide Counted, FailuresCounted, Accounted;
  }

  // ----- Runs

  lemma EmptySound(source: nat)
    ensures Sound(Tables({source}, map[], map[], map[], map[]))
  {
    var t := Tables({source}, map[], map[], map[], map[]);
    forall d: nat ensures IsNumbered(t, d) {
      assert forall no: nat :: !HasNo(t, d, no);
      assert NumberedTo(t, d, 0);
    }
  }

  /** A backend that fails in its first call and answers every later one. */
  function FailsOnce(n: nat, texts: seq<string>): Outcome {
    if n == 0 then BackendFailed else Vectors(seq(|texts|, k => Vector([])))
  }

  lemma FailsOnceMeans(item: Prepared)
    requires |item.chunks| == 1
    ensures Queued(Batch([], 0, 0, 0), item, FailsOnce, 1) == Batch([item], 1, 1, 1)
    ensures Bisect([item], FailsOnce, 1).ok
  {
    assert [item][1..] == [];
    assert Inputs([item]) == ItemInputs(item) + Inputs([]);
    assert |Inputs([item])| == 1;
    assert [] + [item] == [item];
  }

  lemma NewFileIsChanged(t: Tables, source: nat, f: File)
    requires Sound(t) && t.documents == map[] && !f.ignored && f.reachable && f.mode == Content
    requires f.digest.Some? && f.content.Some?
    ensures Changed(t, f) && ItemOf(t, f).chunks == f.content.value && !UpToDate(t, source, [f])
  {
    assert [f][0] == f;
  }

  /**
   * The turn and the end of a scan over one new file of one chunk, flushed at once, into an empty catalog: the backend
   * fails in the loop and answers at the end, and the one file seen is completed twice.
   */
  method CompletedTwice(f: File) returns (complete: bool, tally: Tally)
    requires !f.ignored && f.reachable && f.mode == Content
    requires f.digest.Some? && f.content.Some? && |f.content.value| == 1
    ensures complete && tally.totals.seen == 1 && tally.completed == 2
  {
    hide Sound, Accounted, Evolved, ScanState, SeenKeys, UpToDate, Bisect, DistinctFiles, Survivable, EarlierAfter, Orphans,
      Changed, ItemOf, Queued, FailsOnce, NothingCounted, Untouched, Reliable, EarlierKnown;
    EmptySound(1);
    var con := new Connection(Tables({1}, map[], map[], map[], map[]), k => false);
    var result := new ScanResult();
    ghost var start, excess := con.tables, 0;
    NothingYet(result.tally);
    StateAtStart(1, FailsOnce, start, result.tally);
    NewFileIsChanged(start, 1, f);
    FailsOnceMeans(ItemOf(start, f));
    var p, ok := Progress([], 0, None, {}), true;
    p, ok, excess := TakeTurn(con, 1, f, FailsOnce, 1, result, p, start, [], excess);
    assert [] + [f] == [f];
    complete, ok := FinishScan(con, 1, [f], false, FailsOnce, result, p, start, [f], excess);
    AllCompleted(result.tally, excess);
    tally := result.tally;
  }

  lemma NothingYet(tally: Tally)
    requires tally == Tally(NO_COUNTS, map[], 0, 0, 0, 0, 0, 0)
    ensures NothingCounted(tally)
  {
  }

  /**
   * The turns and the end of a scan over two files, the first unchanged in the catalog, the second an office file that
   * cannot be reached: the scan is complete, and the row of the first file bears the path of the second and no text.
   */
  method RowTakenOver(con: Connection, source: nat, g: File, f: File, embed: Embedder, batch: int)
    returns (complete: bool, d: nat, tally: Tally)
    requires Sound(con.tables) && con.committed == con.tables && source in con.tables.sources && con.Faultless()
    requires !g.ignored && FileSettled(con.tables, g)
    requires !f.ignored && !f.reachable && f.mode == Content && f.office && f.key != g.key
    modifies con
    ensures complete && tally.totals.seen == 2 && tally.totals.failed == 1
    ensures d in old(con.tables).documents && old(con.tables).documents[d].key == g.key
    ensures d in con.tables.documents && con.tables.documents[d].key == g.key
    ensures con.tables.documents[d].path == f.path && con.tables.documents[d].mode == Metadata
    ensures forall c :: c in con.tables.chunks ==> con.tables.chunks[c].document != d
  {
    hide Sound, Accounted, Evolved, ScanState, SeenKeys, UpToDate, Bisect, DistinctFiles, Orphans, Changed, ItemOf, Queued,
      NothingCounted, Reliable, Preserved, NoOwner, TurnTaken, FileSettled, EarlierKnown, NoNewChunks;
    var result := new ScanResult();
    ghost var start, excess := con.tables, 0;
    NothingYet(result.tally);
    StateAtStart(source, embed, start, result.tally);
    SettledHasRow(start, g);
    UnreachableIsNotSettled(start, source, [g, f], 1);
    var p, ok := Progress([], 0, None, {}), true;
    d := OwnerOf(con.tables, g.key).value;
    p, ok, excess := TakeTurn(con, source, g, embed, batch, result, p, start, [], excess);
    assert [] + [g] == [g] && [g] + [f] == [g, f];
    ghost var earlier := p.earlier;
    p, ok, excess := TakeTurn(con, source, f, embed, batch, result, p, start, [g], excess);
    ghost var taken := con.tables;
    var same := PreservedIs(start, taken, source, f, earlier.value);
    complete, ok := FinishScan(con, source, [g, f], false, embed, result, p, start, [g, f], excess);
    SeenIsKept(taken, con.tables, source, [g, f], 0, d);
    tally := result.tally;
  }

  lemma SettledHasRow(t: Tables, f: File)
    requires Sound(t) && FileSettled(t, f)
    ensures OwnerOf(t, f.key).Some? && !Changed(t, f)
  {
    hide Sound;
  }

  lemma UnreachableIsNotSettled(t: Tables, source: nat, files: seq<File>, k: nat)
    requires k < |files| && !files[k].ignored && !files[k].reachable
    ensures !Changed(t, files[k]) && !UpToDate(t, source, files)
  {
  }

  /** Reconciliation spares the row of a file that was seen, and brings back no chunk of it. */
  lemma SeenIsKept(t: Tables, t': Tables, source: nat, files: seq<File>, k: nat, d: nat)
    requires k < |files| && !files[k].ignored && d in t.documents && t.documents[d].key == files[k].key
    requires t'.documents == t.documents - Orphans(t, source, SeenKeys(files)) && NoNewChunks(t, t')
    ensures d in t'.documents && t'.documents[d] == t.documents[d]
    ensures (forall c :: c in t.chunks ==> t.chunks[c].document != d) ==> forall c :: c in t'.chunks ==>
      t'.chunks[c].document != d
  {
  }

  /** Files that share a key are the same to a scan. */
  ghost predicate FilesAgree(files: seq<File>) {
    forall i, j :: 0 <= i < j < |files| && !files[i].ignored && !files[j].ignored && files[i].key == files[j].key ==>
      files[i].size == files[j].size && files[i].mtime == files[j].mtime && files[i].mode == files[j].mode
  }

  /** If they are not, no catalog is ever up to date with them. */
  lemma UpToDateAgrees(t: Tables, source: nat, files: seq<File>)
    requires UniqueKeys(t) && UpToDate(t, source, files)
    ensures FilesAgree(files)
  {
    forall i, j | 0 <= i < j < |files| && !files[i].ignored && !files[j].ignored && files[i].key == files[j].key
      ensures files[i].size == files[j].size && files[i].mtime == files[j].mtime && files[i].mode == files[j].mode
    {
      assert FileSettled(t, files[i]) && FileSettled(t, files[j]);
    }
  }

  /**
   * Two scans of the same files, one after the other.  If the first one leaves the catalog up to date, the second
   * finds every file unchanged and leaves the catalog as it is, whatever its backend does; a complete first scan without
   * failures does leave it up to date unless two of the files share a key.
   */
  method ScanTwice(con: Connection, source: nat, files: seq<File>, available: bool, enumerated: bool,
                   shouldStop: nat -> bool, enabled: nat -> bool, embed: Embedder, again: Embedder, batch: int)
    returns (first: bool, second: bool, ghost between: Tables)
    requires Sound(con.tables) && source in con.tables.sources
    requires forall i: nat, j: nat :: i <= j && shouldStop(i) ==> shouldStop(j)
    modifies con
    ensures Sound(con.tables) && con.committed == con.tables
    ensures first && DistinctFiles(files) ==> UpToDate(between, source, files)
    ensures first && UpToDate(between, source, files) ==> second && con.tables == between
    ensures UpToDate(between, source, files) ==> FilesAgree(files)
  {
    hide Sound, UpToDate, DistinctFiles, Accounted, NothingDeleted, SeenKeys, Reliable, Readable;
    var result := new ScanResult();
    var complete, aborted;
    ghost var excess;
    complete, aborted, excess := ScanSource(con, source, files, available, enumerated, shouldStop, enabled, embed, batch, result);
    first := complete && result.tally.totals.failed == 0;
    var before := con.tables;
    between := before;
    SoundIsUnique(between);
    if UpToDate(between, source, files) { UpToDateAgrees(between, source, files); }
    var rescan := new ScanResult();
    complete, aborted, excess := ScanSource(con, source, files, available, enumerated, shouldStop, enabled, again, batch, rescan);
    second := complete && con.tables == before && rescan.tally.kept == FilesKept(files);
  }

  lemma SoundIsUnique(t: Tables)
    requires Sound(t)
    ensures UniqueKeys(t)
  {
  }
}
