/**
 * The writing half of the indexer.  Any statement inside a document's savepoint may raise: `faults` says
 * which ones do, by the number of the statement since the connection was opened.
 */
module Writer {
  import opened Basics
  import opened Chunker
  import opened Embedding
  import opened Accounting
  import opened Catalog

  function DocumentOf(source: nat, item: Prepared): Document {
    Document(source, item.path, item.key, item.suffix, item.size, item.mtime, item.digest,
             item.title, item.filename, item.mode)
  }

  /** The document row was looked up when the file was prepared; it still has to be there, under the same key. */
  ghost predicate Current(t: Tables, item: Prepared) {
    match item.previous
    case None => true
    case Some(d) => d in t.documents && t.documents[d].key == item.key
  }

  /** `t` holds the file that `item` was prepared from, as a scan compares it. */
  ghost predicate Settled(t: Tables, key: string, size: int, mtime: int, mode: Mode) {
    exists d :: d in t.documents && IsVersion(t.documents[d], key, size, mtime, mode)
  }

  ghost predicate NoOwner(t: Tables, key: string) {
    forall d :: d in t.documents ==> t.documents[d].key != key
  }

  /** A new document's key is still free. */
  ghost predicate Insertable(t: Tables, item: Prepared) {
    item.previous.None? ==> NoOwner(t, item.key)
  }

  predicate IsVersion(doc: Document, key: string, size: int, mtime: int, mode: Mode) {
    doc.key == key && doc.size == size && doc.mtime == mtime && doc.mode == mode
  }

  /** The largest id in use, plus one. */
  method NextRowId(ids: set<nat>) returns (id: nat)
    ensures id !in ids && forall k :: k in ids ==> k < id
  {
    id := 1;
    var left := ids;
    while left != {}
      invariant left <= ids
      invariant forall k :: k in ids && k !in left ==> k < id
      decreases |left|
    {
      var k :| k in left;
      if id <= k { id := k + 1; }
      left := left - {k};
    }
  }

  class Connection {
    const faults: nat -> bool
    var tables: Tables
    var committed: Tables
    var statements: nat

    constructor (tables: Tables, faults: nat -> bool)
      ensures this.tables == committed == tables && this.faults == faults && statements == 0
    {
      this.tables, committed, this.faults, statements := tables, tables, faults, 0;
    }

    method Commit()
      modifies `committed
      ensures committed == tables
    {
      committed := tables;
    }

    method Rollback()
      modifies `tables
      ensures tables == committed
    {
      tables := committed;
    }

    /** No statement fails. */
    ghost predicate Faultless() {
      forall k :: !faults(k)
    }

    /** Whether the next statement gets through. */
    method Execute() returns (ok: bool)
      modifies this`statements
      ensures statements == old(statements) + 1 && ok == !faults(old(statements))
      ensures Faultless() ==> ok
    {
      ok := !faults(statements);
      statements := statements + 1;
    }

    /** Replaces or inserts the document row, and drops the chunks it had. */
    method WriteRow(source: nat, item: Prepared, result: ScanResult) returns (d: nat, ok: bool)
      requires Sound(tables) && Current(tables, item)
      modifies `tables, `statements, result`tally
      ensures ok ==>
                && source in tables.sources
                && (if item.previous.Some? then d == item.previous.value
                    else d !in old(tables).documents && NoOwner(old(tables), item.key))
                && Written(old(tables), tables, d, DocumentOf(source, item), item.chunks, [], 0)
                && result.tally == if item.previous.Some? then old(result.tally).(modified := old(result.tally).modified + 1)
                                   else old(result.tally).(created := old(result.tally).created + 1)
      ensures !ok ==> result.tally == old(result.tally)
      ensures Faultless() && source in old(tables).sources && Insertable(old(tables), item) ==> ok
    {
      ok, d := false, 0;
      var doc := DocumentOf(source, item);
      match item.previous
      case Some(id) =>
        d := id;
        var dropped := Execute();
        if !dropped { return; }
        tables := DropChunks(tables, id);
        var updated := Execute();
        if !updated || source !in tables.sources { return; }
        tables := SetDocument(tables, id, doc);
        result.tally := result.tally.(modified := result.tally.modified + 1);
        WrittenStart(old(tables), tables, d, doc, item.chunks, []);
        ok := true;
      case None =>
        var inserted := Execute();
        if !inserted || source !in tables.sources || KeyOwner(tables, item.key).Some? { return; }
        d := NextRowId(tables.documents.Keys);
        tables := AddDocument(tables, d, doc);
        result.tally := result.tally.(created := result.tally.created + 1);
        WrittenStart(old(tables), tables, d, doc, item.chunks, []);
        ok := true;
    }

    /** Inserts one chunk with its full-text row and its vector. */
    method WriteChunk(d: nat, doc: Document, no: nat, chunk: Chunk, vector: Vector) returns (c: nat, ok: bool)
      modifies `tables, `statements
      ensures ok ==> c !in old(tables).chunks && tables == WithChunk(old(tables), c, d, doc, no, chunk, vector)
      ensures Faultless() && d in old(tables).documents && !HasNo(old(tables), d, no) ==> ok
    {
      ok := false;
      c := NextRowId(tables.chunks.Keys);
      var inserted := Execute();
      var taken := exists x :: x in tables.chunks && tables.chunks[x].document == d && tables.chunks[x].no == no;
      assert taken <==> HasNo(tables, d, no) by {
        assert forall x :: x in tables.chunks && tables.chunks[x].document == d && tables.chunks[x].no == no
                           ==> IsChunk(tables, x, d, no);
      }
      if !inserted || taken || d !in tables.documents { return; }
      tables := AddChunk(tables, c, ChunkRow(d, no, chunk));
      var indexed := Execute();
      if !indexed { return; }
      tables := SetFts(tables, c, FtsOf(doc, chunk));
      var stored := Execute();
      if !stored { return; }
      tables := SetVector(tables, c, vector);
      ok := true;
    }

    /** The statements between the savepoint and its release. */
    method TryWrite(source: nat, item: Prepared, vectors: seq<Vector>, result: ScanResult) returns (d: nat, ok: bool)
      requires Sound(tables) && Current(tables, item)
      modifies `tables, `statements, result`tally
      ensures ok ==>
                && source in old(tables).sources
                && (if item.previous.Some? then d == item.previous.value
                    else d !in old(tables).documents && NoOwner(old(tables), item.key))
                && Written(old(tables), tables, d, DocumentOf(source, item), item.chunks, vectors,
                           Min(|item.chunks|, |vectors|))
      ensures result.tally.(created := 0, modified := 0) == old(result.tally).(created := 0, modified := 0)
      ensures ok ==> result.tally == if item.previous.Some? then old(result.tally).(modified := old(result.tally).modified + 1)
                                     else old(result.tally).(created := old(result.tally).created + 1)
      ensures Faultless() && source in old(tables).sources && Insertable(old(tables), item) ==> ok
    {
      hide Written, Sound, Current, NoOwner, HasNo;
      ghost var base, doc := tables, DocumentOf(source, item);
      d, ok := WriteRow(source, item, result);
      if !ok { return; }
      assert Written(base, tables, d, doc, item.chunks, vectors, 0) by {
        WrittenNothing(base, tables, d, doc, item.chunks, vectors);
      }
      var n := Min(|item.chunks|, |vectors|);
      ghost var tally := result.tally;
      for no := 0 to n
        invariant result.tally == tally
        invariant ok && Written(base, tables, d, doc, item.chunks, vectors, no)
      {
        ghost var before := tables;
        WrittenHasRoom(base, tables, d, doc, item.chunks, vectors, no);
        var c;
        c, ok := WriteChunk(d, DocumentOf(source, item), no, item.chunks[no], vectors[no]);
        if !ok { return; }
        WrittenStep(base, before, d, doc, item.chunks, vectors, no, c);
      }
    }

    /** One document under its savepoint: written completely, or recorded as failed and left as it was. */
    method WriteDocument(source: nat, item: Prepared, vectors: seq<Vector>, result: ScanResult) returns (ok: bool)
      requires Sound(tables) && Current(tables, item)
      modifies `tables, `statements, result`tally
      ensures Sound(tables)
      ensures !ok ==> tables == old(tables)
      ensures Faultless() && source in old(tables).sources && Insertable(old(tables), item) ==> ok
      ensures ok ==> exists d: nat ::
                && (item.previous.Some? ==> d == item.previous.value)
                && (item.previous.None? ==> d !in old(tables).documents)
                && Written(old(tables), tables, d, DocumentOf(source, item), item.chunks, vectors,
                           Min(|item.chunks|, |vectors|))
      ensures var before, after := old(result.tally).(created := 0, modified := 0), result.tally.(created := 0, modified := 0);
              after == if ok then before.(completed := before.completed + 1) else Fail(before, item)
      ensures ok ==> if item.previous.Some? then result.tally.modified == old(result.tally).modified + 1
                     else result.tally.created == old(result.tally).created + 1
    {
      hide Written, AddTo;
      var savepoint := tables;
      var d;
      d, ok := TryWrite(source, item, vectors, result);
      if ok {
        WrittenSound(savepoint, tables, d, DocumentOf(source, item), item.chunks, vectors,
                     Min(|item.chunks|, |vectors|));
        result.tally := result.tally.(completed := result.tally.completed + 1);
      } else {
        tables := savepoint;
        result.RecordFailure(item);
      }
    }

    /**
     * Writes each embedded document.  Those in `written` are indexed with their own chunks and vectors; of the others,
     * one recorded failure each, what the catalog had under their keys is as it was.
     */
    method WriteAll(source: nat, pairs: seq<Pair>, result: ScanResult, ghost open: int) returns (ghost written: set<nat>)
      requires Sound(tables) && AllCurrent(tables, Items(pairs))
      requires Accounted(result.tally, open)
      modifies `tables, `statements, result`tally
      ensures Sound(tables) && Evolved(old(tables), tables, KeySet(Items(pairs)))
      ensures Accounted(result.tally, open - |pairs|) && SameScan(old(result.tally), result.tally)
      ensures Below(written, |pairs|)
      ensures result.tally.totals.failed == old(result.tally).totals.failed + |pairs| - |written|
      ensures DistinctKeys(Items(pairs)) ==> EachWritten(old(tables), tables, source, pairs, written)
      ensures (Faultless() && source in old(tables).sources && DistinctKeys(Items(pairs))
               && AllInsertable(old(tables), Items(pairs))) ==>
                result.tally.totals.failed == old(result.tally).totals.failed
    {
      hide Sound, Current, Written, Accounted, Evolved, DistinctKeys, Fail, Insertable, Indexed, EachWritten, KeySet,
        AllCurrent, AllInsertable, Below, SameScan, OnlyFailing;
      SameScanItself(result.tally);
      ghost var items := Items(pairs);
      ghost var smooth := Faultless() && source in tables.sources && DistinctKeys(items) && AllInsertable(tables, items);
      EvolvedNothing(tables);
      assert items[..0] == [] && items[0..] == items;
      written := {};
      NothingWritten(tables, source, pairs);
      for k := 0 to |pairs|
        invariant Sound(tables) && AllCurrent(tables, items)
        invariant Evolved(old(tables), tables, KeySet(items[..k]))
        invariant Accounted(result.tally, open - k) && SameScan(old(result.tally), result.tally)
        invariant Below(written, k)
        invariant result.tally.totals.failed == old(result.tally).totals.failed + k - |written|
        invariant DistinctKeys(items) ==> EachWritten(old(tables), tables, source, pairs[..k], written)
        invariant smooth ==> source in tables.sources && AllInsertable(tables, items[k..])
        invariant smooth ==> result.tally.totals.failed == old(result.tally).totals.failed
      {
        ghost var before, tally := tables, result.tally;
        ItemsAt(pairs, k);
        NextIsReady(tables, items, k);
        var ok := WriteDocument(source, pairs[k].0, pairs[k].1, result);
        assert items[..k + 1] == items[..k] + [items[k]];
        DocumentWritten(before, tables, source, pairs, k, ok);
        if DistinctKeys(items) { EachWrittenStep(old(tables), before, tables, source, pairs, k, written, ok); }
        OneMoreBelow(written, k);
        written := if ok then written + {k} else written;
        EvolvedTwice(old(tables), before, tables, items, k);
        OneCompleted(tally, result.tally, open - k, items[k], ok);
        SameScanTwice(old(result.tally), tally, result.tally);
        if smooth { InsertableStep(before, tables, items, k); }
      }
      assert items[..|pairs|] == items && pairs[..|pairs|] == pairs;
    }

    /**
     * `_flush`; `ok` is false when the backend itself fails, which happens before anything is written: then the
     * `lost` files that bisection had recorded as failed are completed although they stay pending.
     * Otherwise every pending file is completed: it is indexed with its own vectors, or recorded as failed and left
     * as it was in the catalog.
     */
    method Flush(source: nat, pending: seq<Prepared>, embed: Embedder, result: ScanResult, ghost open: int)
      returns (ok: bool, ghost lost: nat)
      requires Sound(tables) && AllCurrent(tables, pending)
      requires Accounted(result.tally, open)
      modifies this, result
      ensures Sound(tables)
      ensures !ok ==> tables == old(tables) && committed == old(committed)
      ensures ok <==> pending == [] || Bisect(pending, embed, old(result.calls)).ok
      ensures result.calls == if pending == [] then old(result.calls) else Bisect(pending, embed, old(result.calls)).calls
      ensures result.failures == old(result.failures) + if ok then 0 else 1
      ensures !ok ==> lost == |Bisect(pending, embed, old(result.calls)).failed|
      ensures !ok ==> Accounted(result.tally, open - lost) && SameScan(old(result.tally), result.tally)
      ensures ok ==> committed == if pending == [] then old(committed) else tables
      ensures pending == [] ==> tables == old(tables) && result.tally == old(result.tally)
      ensures BackendUp(embed) ==> ok
      ensures ok ==>
                && Evolved(old(tables), tables, KeySet(pending))
                && Accounted(result.tally, open - |pending|) && SameScan(old(result.tally), result.tally)
      ensures ok && result.tally.totals.failed == old(result.tally).totals.failed && DistinctKeys(pending) ==>
                && AllHeld(tables, source, embed, pending)
                && (pending != [] ==>
                      var pairs := Bisect(pending, embed, old(result.calls)).pairs;
                      Items(pairs) == pending && AllIndexed(tables, source, pairs))
      ensures ok && pending != [] && DistinctKeys(pending) ==>
                Landed(old(tables), tables, source, pending, Bisect(pending, embed, old(result.calls)).pairs,
                       result.tally.totals.failed - old(result.tally).totals.failed)
      ensures (Faultless() && Reliable(embed) && source in old(tables).sources && DistinctKeys(pending)
               && AllInsertable(old(tables), pending)) ==>
                ok && result.tally.totals.failed == old(result.tally).totals.failed
    {
      hide Sound, Current, Accounted, Evolved, DistinctKeys, FailAll, Bisect, Interleaves, Reliable, AllInsertable, AllIndexed,
        AllHeld, AllOwnVectors, Landed, EachWritten;
      EvolvedNothing(tables);
      lost := 0;
      if pending == [] {
        NothingToHold(tables, source, embed);
        return true, lost;
      }
      ghost var tally, e := result.tally, Bisect(pending, embed, result.calls);
      var embedded;
      if Reliable(embed) { ReliableEmbedsAll(pending, embed, result.calls); }
      embedded, ok := EmbedGroup(pending, embed, result);
      EmbeddedAccounts(pending, embed, e, tally, open);
      if ok {
        ghost var written := WriteAll(source, embedded, result, open - |e.failed|);
        if DistinctKeys(pending) { FlushedEach(old(tables), tables, source, pending, embedded, e.failed, written); }
        KeySetMonotone(Items(embedded), pending);
        EvolvedWiden(old(tables), tables, KeySet(Items(embedded)), KeySet(pending));
        if e.failed == [] {
          InterleavesAll(pending, Items(embedded));
          if DistinctKeys(pending) { AllWritten(old(tables), tables, source, embedded, written); }
          if AllIndexed(tables, source, embedded) {
            VectorsAreOwn(pending, embed, old(result.calls));
            IndexedHeld(tables, source, embed, embedded);
          }
        }
        Commit();
      } else {
        lost := |e.failed|;
        NeverFails(pending, embed, old(result.calls));
      }
    }
  }

  /** What writing one document of a batch does, whether it succeeds or not. */
  lemma DocumentWritten(t: Tables, t': Tables, source: nat, pairs: seq<Pair>, k: nat, ok: bool)
    requires k < |pairs| && Sound(t) && AllCurrent(t, Items(pairs))
    requires !ok ==> t' == t
    requires ok ==> exists d: nat ::
               && (pairs[k].0.previous.Some? ==> d == pairs[k].0.previous.value)
               && (pairs[k].0.previous.None? ==> d !in t.documents)
               && Written(t, t', d, DocumentOf(source, pairs[k].0), pairs[k].0.chunks, pairs[k].1,
                          Min(|pairs[k].0.chunks|, |pairs[k].1|))
    ensures Evolved(t, t', {pairs[k].0.key}) && AllCurrent(t', Items(pairs))
    ensures ok ==> Indexed(t', source, pairs[k])
  {
    hide Sound, Written, Evolved, Indexed, AllCurrent;
    EvolvedNothing(t);
    ItemsAt(pairs, k);
    if ok {
      var item, n := pairs[k].0, Min(|pairs[k].0.chunks|, |pairs[k].1|);
      var d: nat :| (item.previous.Some? ==> d == item.previous.value) && (item.previous.None? ==> d !in t.documents)
        && Written(t, t', d, DocumentOf(source, item), item.chunks, pairs[k].1, n);
      WrittenEvolves(t, t', d, source, Items(pairs), k, pairs[k].1, n);
      WrittenIndexes(t, t', d, source, pairs[k]);
    }
  }

  lemma EmbeddedAccounts(pending: seq<Prepared>, embed: Embedder, e: Embedded, t: Tally, open: int)
    requires exists n: nat :: e == Bisect(pending, embed, n)
    requires Accounted(t, open)
    ensures e.ok ==>
              && Interleaves(pending, Items(e.pairs), e.failed)
              && |pending| == |e.pairs| + |e.failed| && forall x :: x in Items(e.pairs) ==> x in pending
    ensures var t' := FailAll(t, e.failed).(embedded := t.embedded + e.chunks);
            && Accounted(t', open - |e.failed|) && SameScan(t, t')
            && t'.totals.failed == t.totals.failed + |e.failed|
  {
    hide FailAll, Bisect, Interleaves, Sum;
    var n: nat :| e == Bisect(pending, embed, n);
    if e.ok {
      NothingLost(pending, embed, n);
      InterleavesCount(pending, Items(e.pairs), e.failed);
    }
    FailAllKeeps(t, open, e.failed);
    FailAllSame(t, e.failed);
  }

  lemma {:induction false} FailAllSame(t: Tally, items: seq<Prepared>)
    ensures SameScan(t, FailAll(t, items))
    decreases |items|
  {
    hide AddTo;
    if items != [] {
      FailMeans(t, items[0]);
      FailAllSame(Fail(t, items[0]), items[1..]);
    }
  }

  lemma {:induction false} InterleavesAll<T>(all: seq<T>, kept: seq<T>)
    requires Interleaves(all, kept, [])
    ensures kept == all
    decreases |all|
  {
    if all != [] {
      InterleavesAll(all[1..], kept[1..]);
      assert all == [all[0]] + all[1..] && kept == [kept[0]] + kept[1..];
    }
  }

  lemma KeySetMonotone(a: seq<Prepared>, b: seq<Prepared>)
    requires forall x :: x in a ==> x in b
    ensures KeySet(a) <= KeySet(b)
  {
    forall key | key in KeySet(a) ensures key in KeySet(b) {
      var k :| 0 <= k < |a| && a[k].key == key;
      assert a[k] in b;
    }
  }

  lemma EvolvedWiden(t: Tables, t': Tables, keys: set<string>, keys': set<string>)
    requires Evolved(t, t', keys) && keys <= keys'
    ensures Evolved(t, t', keys')
  {
  }

  ghost predicate AllCurrent(t: Tables, items: seq<Prepared>) {
    forall item :: item in items ==> Current(t, item)
  }

  ghost predicate AllInsertable(t: Tables, items: seq<Prepared>) {
    forall item :: item in items ==> Insertable(t, item)
  }

  /** Changes under other keys leave a free key free. */
  lemma InsertableKept(t: Tables, t': Tables, keys: set<string>, items: seq<Prepared>)
    requires Evolved(t, t', keys) && AllInsertable(t, items)
    requires forall item :: item in items ==> item.key !in keys
    ensures AllInsertable(t', items)
  {
  }

  lemma InsertableStep(t: Tables, t': Tables, items: seq<Prepared>, k: nat)
    requires k < |items| && DistinctKeys(items) && AllInsertable(t, items[k..]) && Evolved(t, t', {items[k].key})
    ensures AllInsertable(t', items[k + 1..]) && t'.sources == t.sources
  {
    var rest := items[k + 1..];
    assert forall i :: 0 <= i < |rest| ==> rest[i] == items[k..][i + 1] && rest[i] == items[k + 1 + i];
    InsertableKept(t, t', {items[k].key}, rest);
  }

  /** The document is indexed with its own chunks, each with a vector that the backend returned for its own text. */
  ghost predicate Held(t: Tables, source: nat, embed: Embedder, item: Prepared) {
    exists vectors :: Indexed(t, source, (item, vectors)) && OwnVectors(embed, (item, vectors))
  }

  ghost predicate AllHeld(t: Tables, source: nat, embed: Embedder, items: seq<Prepared>) {
    forall item :: item in items ==> Held(t, source, embed, item)
  }

  ghost function KeySet(items: seq<Prepared>): set<string> {
    set k | 0 <= k < |items| :: items[k].key
  }

  ghost predicate DistinctKeys(items: seq<Prepared>) {
    forall i, j :: 0 <= i < j < |items| ==> items[i].key != items[j].key
  }

  /**
   * Documents keep their keys, none disappears, and only those with the given keys change or are new; the chunks of
   * the others are the same rows, with the same full-text rows and vectors.
   */
  ghost predicate Evolved(t: Tables, t': Tables, keys: set<string>) {
    DocumentsEvolved(t, t', keys) && ChunksEvolved(t, t', keys)
  }

  /** A chunk of a document whose key is not among `keys`. */
  ghost predicate Foreign(t: Tables, c: nat, keys: set<string>) {
    c in t.chunks && t.chunks[c].document in t.documents && t.documents[t.chunks[c].document].key !in keys
  }

  ghost predicate RowKept(t: Tables, t': Tables, c: nat) {
    && c in t.chunks && c in t'.chunks && t'.chunks[c] == t.chunks[c]
    && (c in t.fts <==> c in t'.fts) && (c in t.fts ==> t'.fts[c] == t.fts[c])
    && (c in t.vectors <==> c in t'.vectors) && (c in t.vectors ==> t'.vectors[c] == t.vectors[c])
  }

  ghost predicate ChunksEvolved(t: Tables, t': Tables, keys: set<string>) {
    && (forall c :: Foreign(t, c, keys) ==> RowKept(t, t', c))
    && (forall c :: Foreign(t', c, keys) ==> RowKept(t, t', c))
  }

  ghost predicate DocumentsEvolved(t: Tables, t': Tables, keys: set<string>) {
    && t'.sources == t.sources
    && (forall d :: d in t.documents ==> d in t'.documents && t'.documents[d].key == t.documents[d].key)
    && (forall d :: d in t.documents && t.documents[d].key !in keys ==> t'.documents[d] == t.documents[d])
    && (forall d :: d in t'.documents && d !in t.documents ==> t'.documents[d].key in keys)
  }

  lemma EvolvedNothing(t: Tables)
    ensures Evolved(t, t, KeySet([]))
    ensures forall keys: set<string> :: Evolved(t, t, keys)
  {
  }

  lemma EvolvedTwice(t: Tables, t': Tables, t'': Tables, items: seq<Prepared>, k: nat)
    requires k < |items| && Evolved(t, t', KeySet(items[..k])) && Evolved(t', t'', {items[k].key})
    ensures Evolved(t, t'', KeySet(items[..k + 1]))
  {
    EvolvedTransitive(t, t', t'', KeySet(items[..k]), {items[k].key});
    assert KeySet(items[..k + 1]) == KeySet(items[..k]) + {items[k].key} by {
      assert items[..k + 1][k] == items[k];
      assert forall i :: 0 <= i < k ==> items[..k + 1][i] == items[..k][i];
    }
  }

  lemma EvolvedTransitive(t: Tables, t': Tables, t'': Tables, keys: set<string>, keys': set<string>)
    requires Evolved(t, t', keys) && Evolved(t', t'', keys')
    ensures Evolved(t, t'', keys + keys')
  {
    forall c | Foreign(t, c, keys + keys') ensures RowKept(t, t'', c) {
      assert Foreign(t, c, keys) && RowKept(t, t', c);
      assert Foreign(t', c, keys') && RowKept(t', t'', c);
    }
    forall c | Foreign(t'', c, keys + keys') ensures RowKept(t, t'', c) {
      assert Foreign(t'', c, keys') && RowKept(t', t'', c);
      assert Foreign(t', c, keys) && RowKept(t, t', c);
    }
  }

  lemma EvolvedKeepsCurrent(t: Tables, t': Tables, keys: set<string>, items: seq<Prepared>)
    requires Evolved(t, t', keys) && AllCurrent(t, items)
    ensures AllCurrent(t', items)
  {
  }

  /** A completed write evolves only its own key, keeps pending lookups current, and settles its file. */
  lemma WrittenEvolves(t: Tables, t': Tables, d: nat, source: nat, items: seq<Prepared>, k: nat,
                       vectors: seq<Vector>, n: nat)
    requires k < |items| && AllCurrent(t, items) && n <= |items[k].chunks| && n <= |vectors| && Sound(t)
    requires items[k].previous.Some? ==> d == items[k].previous.value
    requires items[k].previous.None? ==> d !in t.documents
    requires Written(t, t', d, DocumentOf(source, items[k]), items[k].chunks, vectors, n)
    ensures Evolved(t, t', {items[k].key}) && AllCurrent(t', items)
    ensures Settled(t', items[k].key, items[k].size, items[k].mtime, items[k].mode)
  {
    assert Agree(t);
    hide NumberedTo, OthersKept, OwnRow, ChunksEvolved, Agree, Sound;
    var item := items[k];
    assert item in items && Current(t, item);
    assert t'.documents == t.documents[d := DocumentOf(source, item)];
    assert IsVersion(t'.documents[d], item.key, item.size, item.mtime, item.mode);
    WrittenKeepsChunks(t, t', d, DocumentOf(source, item));
    EvolvedKeepsCurrent(t, t', {item.key}, items);
  }

  lemma WrittenKeepsChunks(t: Tables, t': Tables, d: nat, doc: Document)
    requires Agree(t) && t'.chunks.Keys == t'.fts.Keys == t'.vectors.Keys
    requires t'.documents == t.documents[d := doc] && OthersKept(t, t', d)
    requires d in t.documents ==> t.documents[d].key == doc.key
    ensures ChunksEvolved(t, t', {doc.key})
  {
  }

  /** Document `d` is `doc` with these chunks, numbered from 0, each with its own full-text row and vector. */
  ghost predicate Holds(t: Tables, d: nat, doc: Document, chunks: seq<Chunk>, vectors: seq<Vector>) {
    var n := Min(|chunks|, |vectors|);
    && d in t.documents && t.documents[d] == doc
    && NumberedTo(t, d, n)
    && forall c :: c in t.chunks && t.chunks[c].document == d ==> OwnRow(t, c, doc, chunks[..n], vectors[..n])
  }

  ghost predicate Indexed(t: Tables, source: nat, p: Pair) {
    exists d: nat :: Holds(t, d, DocumentOf(source, p.0), p.0.chunks, p.1)
  }

  ghost predicate AllIndexed(t: Tables, source: nat, pairs: seq<Pair>) {
    forall k :: 0 <= k < |pairs| ==> Indexed(t, source, pairs[k])
  }

  // ----- What a batch leaves behind when some of its documents fail

  /** A chunk of a document with this key. */
  ghost predicate ChunkUnder(t: Tables, c: nat, key: string) {
    c in t.chunks && t.chunks[c].document in t.documents && t.documents[t.chunks[c].document].key == key
  }

  /** The rows with the key and everything under them are the same in both. */
  ghost predicate KeyKept(t: Tables, t': Tables, key: string) {
    && (forall d :: d in t.documents && t.documents[d].key == key ==> d in t'.documents && t'.documents[d] == t.documents[d])
    && (forall d :: d in t'.documents && t'.documents[d].key == key ==> d in t.documents && t'.documents[d] == t.documents[d])
    && TextUnderKept(t, t', key)
  }

  /** The chunks under the key, their full-text rows and their vectors are the same in both. */
  ghost predicate TextUnderKept(t: Tables, t': Tables, key: string) {
    && (forall c :: ChunkUnder(t, c, key) <==> ChunkUnder(t', c, key))
    && (forall c :: ChunkUnder(t, c, key) ==> RowKept(t, t', c))
  }

  ghost predicate Below(positions: set<nat>, n: nat) {
    forall k :: k in positions ==> k < n
  }

  /** The documents at the positions in `written` are indexed, under the keys of the others nothing has changed. */
  ghost predicate EachWritten(t: Tables, t': Tables, source: nat, pairs: seq<Pair>, written: set<nat>) {
    forall k: nat :: k < |pairs| ==> if k in written then Indexed(t', source, pairs[k]) else KeyKept(t, t', pairs[k].0.key)
  }

  /**
   * What a flush does to each pending document: as many as there are recorded failures, those without vectors
   * included, are as they were in the catalog, and all others are indexed with the vectors the backend gave them.
   */
  ghost predicate Landed(t: Tables, t': Tables, source: nat, pending: seq<Prepared>, pairs: seq<Pair>, failures: int) {
    && (forall item :: item in pending && item !in Items(pairs) ==> KeyKept(t, t', item.key))
    && exists written: set<nat> ::
         Below(written, |pairs|) && failures == |pending| - |written| && EachWritten(t, t', source, pairs, written)
  }

  lemma OneMoreBelow(positions: set<nat>, n: nat)
    requires Below(positions, n)
    ensures n !in positions && Below(positions, n + 1) && Below(positions + {n}, n + 1)
  {
  }

  lemma NextIsReady(t: Tables, items: seq<Prepared>, k: nat)
    requires k < |items| && AllCurrent(t, items)
    ensures Current(t, items[k]) && (AllInsertable(t, items[k..]) ==> Insertable(t, items[k]))
  {
    assert items[k..][0] == items[k] && items[k] in items[k..];
  }

  lemma NothingWritten(t: Tables, source: nat, pairs: seq<Pair>)
    ensures EachWritten(t, t, source, pairs[..0], {}) && Below({}, 0)
  {
  }

  /** When nothing is missing from it, every document is written. */
  lemma AllWritten(t: Tables, t': Tables, source: nat, pairs: seq<Pair>, written: set<nat>)
    requires EachWritten(t, t', source, pairs, written) && Below(written, |pairs|)
    ensures |written| == |pairs| ==> AllIndexed(t', source, pairs)
  {
    hide Indexed, KeyKept;
    forall k: nat | k < |pairs| && |written| == |pairs| ensures k in written {
      if k !in written { BelowCount(|pairs|, written + {k}); }
    }
  }

  lemma {:induction false} BelowCount(n: nat, positions: set<nat>)
    requires Below(positions, n)
    ensures |positions| <= n
  {
    if n > 0 {
      if n - 1 !in positions { assert positions - {n - 1} == positions; }
      BelowCount(n - 1, positions - {n - 1});
    } else {
      assert positions == {};
    }
  }

  /** Changes under other keys leave a key as it was. */
  lemma EvolvedKeepsKey(t: Tables, t': Tables, keys: set<string>, key: string)
    requires Evolved(t, t', keys) && key !in keys
    ensures KeyKept(t, t', key)
  {
    forall c ensures (ChunkUnder(t, c, key) <==> ChunkUnder(t', c, key)) && (ChunkUnder(t, c, key) ==> RowKept(t, t', c)) {
      assert ChunkUnder(t, c, key) ==> Foreign(t, c, keys) && RowKept(t, t', c);
      assert ChunkUnder(t', c, key) ==> Foreign(t', c, keys) && RowKept(t, t', c);
    }
  }

  lemma TextUnderKeptTwice(t: Tables, t': Tables, t'': Tables, key: string)
    requires TextUnderKept(t, t', key) && TextUnderKept(t', t'', key)
    ensures TextUnderKept(t, t'', key)
  {
    hide ChunkUnder;
  }

  lemma KeyKeptTwice(t: Tables, t': Tables, t'': Tables, key: string)
    requires KeyKept(t, t', key) && KeyKept(t', t'', key)
    ensures KeyKept(t, t'', key)
  {
    TextUnderKeptTwice(t, t', t'', key);
    hide TextUnderKept;
  }

  /** One more document, written or not, leaves those before it as they were left, and those after it untouched. */
  lemma {:induction false} EachWrittenStep(t: Tables, t': Tables, t'': Tables, source: nat, pairs: seq<Pair>, k: nat,
                                           written: set<nat>, ok: bool)
    requires k < |pairs| && DistinctKeys(Items(pairs)) && EachWritten(t, t', source, pairs[..k], written)
    requires Below(written, k)
    requires Evolved(t, t', KeySet(Items(pairs)[..k])) && Evolved(t', t'', {pairs[k].0.key})
    requires if ok then Indexed(t'', source, pairs[k]) else t'' == t'
    ensures EachWritten(t, t'', source, pairs[..k + 1], if ok then written + {k} else written)
  {
    hide Evolved, Holds, KeyKept;
    var items := Items(pairs);
    var written' := if ok then written + {k} else written;
    forall i: nat | i <= k
      ensures if i in written' then Indexed(t'', source, pairs[i]) else KeyKept(t, t'', pairs[i].0.key)
    {
      ItemsAt(pairs, i);
      ItemsAt(pairs, k);
      if i < k {
        assert pairs[..k][i] == pairs[i];
        StaysIndexed(t', t'', {pairs[k].0.key}, source, pairs[i]);
        EvolvedKeepsKey(t', t'', {pairs[k].0.key}, pairs[i].0.key);
        if i !in written { KeyKeptTwice(t, t', t'', pairs[i].0.key); }
      } else if !ok {
        OthersBefore(items, k);
        EvolvedKeepsKey(t, t', KeySet(items[..k]), items[k].key);
      }
    }
  }

  lemma OthersBefore(items: seq<Prepared>, k: nat)
    requires k < |items| && DistinctKeys(items)
    ensures items[k].key !in KeySet(items[..k])
  {
  }

  lemma StaysIndexed(t: Tables, t': Tables, keys: set<string>, source: nat, p: Pair)
    requires Evolved(t, t', keys) && p.0.key !in keys
    ensures Indexed(t, source, p) ==> Indexed(t', source, p)
  {
    hide Evolved, Holds, KeyKept;
    if Indexed(t, source, p) {
      var d: nat :| Holds(t, d, DocumentOf(source, p.0), p.0.chunks, p.1);
      EvolvedKeepsKey(t, t', keys, p.0.key);
      HoldsKept(t, t', d, DocumentOf(source, p.0), p.0.chunks, p.1);
    }
  }

  /** The documents of a batch that bisection gave up were not touched. */
  lemma {:induction false} FlushedEach(t: Tables, t': Tables, source: nat, pending: seq<Prepared>, pairs: seq<Pair>,
                                       failed: seq<Prepared>, written: set<nat>)
    requires Interleaves(pending, Items(pairs), failed) && DistinctKeys(pending)
    requires Evolved(t, t', KeySet(Items(pairs))) && Below(written, |pairs|)
    requires DistinctKeys(Items(pairs)) ==> EachWritten(t, t', source, pairs, written)
    ensures DistinctKeys(Items(pairs))
    ensures Landed(t, t', source, pending, pairs, |failed| + |pairs| - |written|)
  {
    hide Evolved, KeyKept, Interleaves, EachWritten;
    KeptDistinct(pending, Items(pairs), failed);
    InterleavesCount(pending, Items(pairs), failed);
    forall item | item in pending && item !in Items(pairs) ensures KeyKept(t, t', item.key) {
      if item.key in KeySet(Items(pairs)) {
        var k :| 0 <= k < |Items(pairs)| && Items(pairs)[k].key == item.key;
        assert Items(pairs)[k] in Items(pairs);
        SameKeySameItem(pending, Items(pairs)[k], item);
      }
      EvolvedKeepsKey(t, t', KeySet(Items(pairs)), item.key);
    }
  }

  lemma SameKeySameItem(items: seq<Prepared>, a: Prepared, b: Prepared)
    requires DistinctKeys(items) && a in items && b in items && a.key == b.key
    ensures a == b
  {
    var i :| 0 <= i < |items| && items[i] == a;
    var j :| 0 <= j < |items| && items[j] == b;
  }

  lemma {:induction false} KeptDistinct(all: seq<Prepared>, kept: seq<Prepared>, dropped: seq<Prepared>)
    requires Interleaves(all, kept, dropped) && DistinctKeys(all)
    ensures DistinctKeys(kept)
    decreases |all|
  {
    if all != [] {
      var rest := all[1..];
      assert forall i :: 0 <= i < |rest| ==> rest[i] == all[i + 1];
      if kept != [] && kept[0] == all[0] && Interleaves(rest, kept[1..], dropped) {
        KeptDistinct(rest, kept[1..], dropped);
        InterleavesCount(rest, kept[1..], dropped);
        assert forall i :: 0 < i < |kept| ==> kept[i] == kept[1..][i - 1] && kept[i] in kept[1..];
      } else {
        KeptDistinct(rest, kept, dropped[1..]);
      }
    }
  }

  lemma WrittenIndexes(t: Tables, t': Tables, d: nat, source: nat, p: Pair)
    requires Written(t, t', d, DocumentOf(source, p.0), p.0.chunks, p.1, Min(|p.0.chunks|, |p.1|))
    ensures Indexed(t', source, p)
  {
    hide OwnRow, OthersKept, NumberedTo;
    assert Holds(t', d, DocumentOf(source, p.0), p.0.chunks, p.1);
  }

  /** A document whose key is left alone stays as it is, chunks, full-text rows and vectors included. */
  lemma HoldsKept(t: Tables, t': Tables, d: nat, doc: Document, chunks: seq<Chunk>, vectors: seq<Vector>)
    requires KeyKept(t, t', doc.key) && Holds(t, d, doc, chunks, vectors)
    ensures Holds(t', d, doc, chunks, vectors)
  {
    forall c: nat, no: nat ensures IsChunk(t', c, d, no) <==> IsChunk(t, c, d, no) {
      assert c in t.chunks && t.chunks[c].document == d ==> ChunkUnder(t, c, doc.key) && RowKept(t, t', c);
      assert c in t'.chunks && t'.chunks[c].document == d ==> ChunkUnder(t', c, doc.key) && RowKept(t, t', c);
    }
    SameNumbers(t, t', d, Min(|chunks|, |vectors|));
    forall c | c in t'.chunks && t'.chunks[c].document == d
      ensures OwnRow(t', c, doc, chunks[..Min(|chunks|, |vectors|)], vectors[..Min(|chunks|, |vectors|)])
    {
      assert ChunkUnder(t', c, doc.key) && RowKept(t, t', c);
    }
  }

  lemma SameNumbers(t: Tables, t': Tables, d: nat, n: nat)
    requires NumberedTo(t, d, n) && forall c: nat, no: nat :: IsChunk(t', c, d, no) <==> IsChunk(t, c, d, no)
    ensures NumberedTo(t', d, n)
  {
    hide IsChunk;
    forall no: nat ensures HasNo(t', d, no) <==> HasNo(t, d, no) {
    }
  }

  lemma NothingToHold(t: Tables, source: nat, embed: Embedder)
    ensures AllHeld(t, source, embed, [])
  {
  }

  lemma {:induction false} IndexedHeld(t: Tables, source: nat, embed: Embedder, pairs: seq<Pair>)
    requires AllIndexed(t, source, pairs) && AllOwnVectors(embed, pairs)
    ensures AllHeld(t, source, embed, Items(pairs))
  {
    hide Indexed, OwnVectors;
    var items := Items(pairs);
    forall item | item in items ensures Held(t, source, embed, item) {
      var k :| 0 <= k < |items| && items[k] == item;
      ItemsAt(pairs, k);
      assert pairs[k] == (item, pairs[k].1) && pairs[k] in pairs;
      assert Indexed(t, source, (item, pairs[k].1)) && OwnVectors(embed, (item, pairs[k].1));
    }
  }

  /** The counters of one scan, and no failure forgotten. */
  ghost predicate SameScan(t: Tally, t': Tally) {
    && t'.totals.seen == t.totals.seen && t'.totals.ignored == t.totals.ignored
    && t.totals.failed <= t'.totals.failed && t'.kept == t.kept && t'.deleted == t.deleted
    && OnlyFailing(t, t')
  }

  /** With any extension the same files are counted, some of them now as failed. */
  ghost predicate OnlyFailing(t: Tally, t': Tally) {
    forall e :: var was, now := CountsOf(t, e), CountsOf(t', e);
      && now.seen == was.seen && now.ignored == was.ignored && was.failed <= now.failed
      && now.content <= was.content && now.metadata <= was.metadata
  }

  lemma OneCompleted(t: Tally, t': Tally, open: int, item: Prepared, ok: bool)
    requires Accounted(t, open)
    requires var before, after := t.(created := 0, modified := 0), t'.(created := 0, modified := 0);
             after == if ok then before.(completed := before.completed + 1) else Fail(before, item)
    ensures Accounted(t', open - 1) && SameScan(t, t')
    ensures t'.totals.failed == t.totals.failed + if ok then 0 else 1
  {
    hide AddTo, Sum;
    var before := t.(created := 0, modified := 0);
    if ok {
      assert Accounted(t', open - 1);
    } else {
      FailKeeps(before, open, item);
      FailMeans(before, item);
      assert Accounted(t'.(created := 0, modified := 0), open - 1);
    }
    OnlyCreated(t, t');
  }

  lemma SameScanItself(t: Tally)
    ensures SameScan(t, t)
  {
  }

  lemma SameScanTwice(t: Tally, t': Tally, t'': Tally)
    requires SameScan(t, t') && SameScan(t', t'')
    ensures SameScan(t, t'')
  {
  }

  lemma OnlyCreated(t: Tally, t': Tally)
    requires OnlyFailing(t.(created := 0, modified := 0), t'.(created := 0, modified := 0))
    ensures OnlyFailing(t, t')
  {
    assert forall e :: CountsOf(t, e) == CountsOf(t.(created := 0, modified := 0), e);
    assert forall e :: CountsOf(t', e) == CountsOf(t'.(created := 0, modified := 0), e);
  }

  lemma {:induction false} ItemsAt(pairs: seq<Pair>, k: nat)
    requires k < |pairs|
    ensures Items(pairs)[k] == pairs[k].0
  {
    if k > 0 { ItemsAt(pairs[1..], k - 1); }
  }

  lemma WrittenNothing(base: Tables, t: Tables, d: nat, doc: Document, chunks: seq<Chunk>, vectors: seq<Vector>)
    requires Written(base, t, d, doc, chunks, [], 0)
    ensures Written(base, t, d, doc, chunks, vectors, 0)
  {
    hide NumberedTo;
    assert vectors[..0] == [];
  }
}
