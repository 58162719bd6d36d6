/**
 * The catalog as identity resolution sees it: the rows it reads, the triggers that number its revisions,
 * and the resolution itself.  The point is that a revision cannot stay the same when something that the
 * resolution reads has changed.
 */
module IdentityResolver {
  import opened Ranking
  import opened Wrappers

  import Sorting

  datatype Doc = Doc(
    id: nat, filename: string, title: string, path: string, key: string, source: nat, extension: string, modified: int,
    size: int, digest: string, indexed: int, mode: string)

  datatype Src = Src(id: nat, caption: string, path: string, key: string, enabled: bool, status: string)

  function Last<T>(s: seq<T>): T
    requires s != []
  {
    s[|s| - 1]
  }

  datatype Generation = Generation(token: string, revision: nat)

  /** One committed state of a database file; a catalog older than the cache has no generation row. */
  datatype Db = Db(docs: seq<Doc>, sources: seq<Src>, generation: Option<Generation>)

  // ----- What resolution reads

  datatype DocView = DocView(
    id: nat, filename: string, title: string, path: string, key: string, source: nat, extension: string, modified: int)

  datatype SrcView = SrcView(id: nat, caption: string, path: string)

  function ViewDoc(d: Doc): DocView {
    DocView(d.id, d.filename, d.title, d.path, d.key, d.source, d.extension, d.modified)
  }

  function ViewSrc(s: Src): SrcView {
    SrcView(s.id, s.caption, s.path)
  }

  function ViewDocs(docs: seq<Doc>): (v: seq<DocView>)
    ensures |v| == |docs| && forall k :: 0 <= k < |docs| ==> v[k] == ViewDoc(docs[k])
  {
    seq(|docs|, k requires 0 <= k < |docs| => ViewDoc(docs[k]))
  }

  function ViewSources(sources: seq<Src>): (v: seq<SrcView>)
    ensures |v| == |sources| && forall k :: 0 <= k < |sources| ==> v[k] == ViewSrc(sources[k])
  {
    seq(|sources|, k requires 0 <= k < |sources| => ViewSrc(sources[k]))
  }

  predicate SameView(a: Db, b: Db) {
    ViewDocs(a.docs) == ViewDocs(b.docs) && ViewSources(a.sources) == ViewSources(b.sources)
  }

  // ----- Statements and triggers

  datatype DocColumn = Filename | Title | Path | Key | Source | Extension | Modified | Size | Digest | Indexed | IngestionMode

  datatype SrcColumn = Label | SrcPath | SrcKey | Enabled | Status

  /** Statements a writer may run; `values` supplies the columns an update sets. */
  datatype Statement =
    | InsertDoc(doc: Doc)
    | DeleteDoc(id: nat)
    | UpdateDoc(id: nat, columns: set<DocColumn>, values: Doc)
    | InsertSource(src: Src)
    | DeleteSource(id: nat)
    | UpdateSource(id: nat, srcColumns: set<SrcColumn>, srcValues: Src)
    | Unrelated

  function MergeDoc(d: Doc, columns: set<DocColumn>, v: Doc): Doc {
    Doc(d.id,
        if Filename in columns then v.filename else d.filename,
        if Title in columns then v.title else d.title,
        if Path in columns then v.path else d.path,
        if Key in columns then v.key else d.key,
        if Source in columns then v.source else d.source,
        if Extension in columns then v.extension else d.extension,
        if Modified in columns then v.modified else d.modified,
        if Size in columns then v.size else d.size,
        if Digest in columns then v.digest else d.digest,
        if Indexed in columns then v.indexed else d.indexed,
        if IngestionMode in columns then v.mode else d.mode)
  }

  function MergeSrc(s: Src, columns: set<SrcColumn>, v: Src): Src {
    Src(s.id,
        if Label in columns then v.caption else s.caption,
        if SrcPath in columns then v.path else s.path,
        if SrcKey in columns then v.key else s.key,
        if Enabled in columns then v.enabled else s.enabled,
        if Status in columns then v.status else s.status)
  }

  const TRACKED_DOC_COLUMNS: set<DocColumn> := {Filename, Title, Path, Key, Source, Extension, Modified}
  const TRACKED_SRC_COLUMNS: set<SrcColumn> := {Label, SrcPath}

  /** `AFTER UPDATE OF ... ON documents WHEN old.f IS NOT new.f OR ...` */
  predicate DocTriggerFires(d: Doc, columns: set<DocColumn>, n: Doc) {
    && columns * TRACKED_DOC_COLUMNS != {}
    && (d.filename != n.filename || d.title != n.title || d.path != n.path || d.key != n.key
        || d.source != n.source || d.extension != n.extension || d.modified != n.modified)
  }

  predicate SrcTriggerFires(s: Src, columns: set<SrcColumn>, n: Src) {
    columns * TRACKED_SRC_COLUMNS != {} && (s.caption != n.caption || s.path != n.path)
  }

  function Bump(g: Option<Generation>, times: nat): Option<Generation> {
    if g.None? then g else Some(Generation(g.value.token, g.value.revision + times))
  }

  /** The rows after an update and how often the row trigger fired. */
  function UpdateDocs(docs: seq<Doc>, id: nat, columns: set<DocColumn>, v: Doc): (r: (seq<Doc>, nat))
    ensures |r.0| == |docs|
  {
    if docs == [] then ([], 0) else
      var rest := UpdateDocs(docs[1..], id, columns, v);
      var d := docs[0];
      if d.id != id then ([d] + rest.0, rest.1) else
        var n := MergeDoc(d, columns, v);
        ([n] + rest.0, rest.1 + if DocTriggerFires(d, columns, n) then 1 else 0)
  }

  function UpdateSources(sources: seq<Src>, id: nat, columns: set<SrcColumn>, v: Src): (r: (seq<Src>, nat))
    ensures |r.0| == |sources|
  {
    if sources == [] then ([], 0) else
      var rest := UpdateSources(sources[1..], id, columns, v);
      var s := sources[0];
      if s.id != id then ([s] + rest.0, rest.1) else
        var n := MergeSrc(s, columns, v);
        ([n] + rest.0, rest.1 + if SrcTriggerFires(s, columns, n) then 1 else 0)
  }

  function DropDocs(docs: seq<Doc>, gone: Doc -> bool): (r: (seq<Doc>, nat))
    ensures r.1 == 0 ==> r.0 == docs
  {
    if docs == [] then ([], 0) else
      var rest := DropDocs(docs[1..], gone);
      if gone(docs[0]) then (rest.0, rest.1 + 1) else ([docs[0]] + rest.0, rest.1)
  }

  function DropSources(sources: seq<Src>, id: nat): (r: (seq<Src>, nat))
    ensures r.1 == 0 ==> r.0 == sources
  {
    if sources == [] then ([], 0) else
      var rest := DropSources(sources[1..], id);
      if sources[0].id == id then (rest.0, rest.1 + 1) else ([sources[0]] + rest.0, rest.1)
  }

  predicate HasDoc(docs: seq<Doc>, id: nat) {
    exists k :: 0 <= k < |docs| && docs[k].id == id
  }

  predicate HasSource(sources: seq<Src>, id: nat) {
    exists k :: 0 <= k < |sources| && sources[k].id == id
  }

  /**
   * A statement with the triggers it fires; deleting a source cascades to its documents, and inserting under
   * an id in use raises and changes nothing.
   */
  function Apply(db: Db, s: Statement): Db {
    match s
    case InsertDoc(doc) =>
      if HasDoc(db.docs, doc.id) then db else Db(db.docs + [doc], db.sources, Bump(db.generation, 1))
    case DeleteDoc(id) =>
      var r := DropDocs(db.docs, (d: Doc) => d.id == id);
      Db(r.0, db.sources, Bump(db.generation, r.1))
    case UpdateDoc(id, columns, v) =>
      var r := UpdateDocs(db.docs, id, columns, v);
      Db(r.0, db.sources, Bump(db.generation, r.1))
    case InsertSource(src) =>
      if HasSource(db.sources, src.id) then db else Db(db.docs, db.sources + [src], Bump(db.generation, 1))
    case DeleteSource(id) =>
      var r := DropSources(db.sources, id);
      var q := DropDocs(db.docs, (d: Doc) => d.source == id);
      Db(q.0, r.0, Bump(db.generation, r.1 + q.1))
    case UpdateSource(id, columns, v) =>
      var r := UpdateSources(db.sources, id, columns, v);
      Db(db.docs, r.0, Bump(db.generation, r.1))
    case Unrelated => db
  }

  function ApplyAll(db: Db, ss: seq<Statement>): Db
    decreases |ss|
  {
    if ss == [] then db else ApplyAll(Apply(db, ss[0]), ss[1..])
  }

  lemma {:induction false} DropDocsIs(docs: seq<Doc>, gone: Doc -> bool)
    ensures var (left, times) := DropDocs(docs, gone);
            (forall d :: d in left <==> d in docs && !gone(d)) && times == |docs| - |left|
  {
    if docs != [] {
      DropDocsIs(docs[1..], gone);
      assert docs == [docs[0]] + docs[1..];
    }
  }

  lemma {:induction false} DropSourcesIs(sources: seq<Src>, id: nat)
    ensures var (left, times) := DropSources(sources, id);
            (forall s :: s in left <==> s in sources && s.id != id) && times == |sources| - |left|
  {
    if sources != [] {
      DropSourcesIs(sources[1..], id);
      assert sources == [sources[0]] + sources[1..];
    }
  }

  /** A deletion takes away the rows with the id, and the documents of a source with it; each of them raises the revision. */
  lemma DeletionsCounted(db: Db, id: nat)
    requires db.generation.Some?
    ensures var after := Apply(db, DeleteDoc(id));
            && (forall d :: d in after.docs <==> d in db.docs && d.id != id) && after.sources == db.sources
            && after.generation.Some? && after.generation.value.token == db.generation.value.token
            && after.generation.value.revision - db.generation.value.revision == |db.docs| - |after.docs|
    ensures var after := Apply(db, DeleteSource(id));
            && (forall d :: d in after.docs <==> d in db.docs && d.source != id)
            && (forall s :: s in after.sources <==> s in db.sources && s.id != id)
            && after.generation.Some? && after.generation.value.token == db.generation.value.token
            && after.generation.value.revision - db.generation.value.revision
               == |db.docs| - |after.docs| + |db.sources| - |after.sources|
  {
    DropDocsIs(db.docs, (d: Doc) => d.id == id);
    DropDocsIs(db.docs, (d: Doc) => d.source == id);
    DropSourcesIs(db.sources, id);
  }

  lemma {:induction false} UpdateDocsTracked(docs: seq<Doc>, id: nat, columns: set<DocColumn>, v: Doc)
    ensures var r := UpdateDocs(docs, id, columns, v);
            r.1 == 0 ==> ViewDocs(r.0) == ViewDocs(docs)
  {
    hide MergeDoc, DocTriggerFires, ViewDoc;
    if docs != [] {
      UpdateDocsTracked(docs[1..], id, columns, v);
      var r, rest := UpdateDocs(docs, id, columns, v), UpdateDocs(docs[1..], id, columns, v);
      if r.1 == 0 {
        UpdateTracked(docs[0], columns, v);
        assert ViewDoc(r.0[0]) == ViewDoc(docs[0]);
        forall k | 0 < k < |docs| ensures ViewDoc(r.0[k]) == ViewDoc(docs[k]) {
          assert ViewDocs(rest.0)[k - 1] == ViewDocs(docs[1..])[k - 1];
        }
      }
    }
  }

  /** A column that resolution reads can only change through an update that fires the trigger. */
  lemma UpdateTracked(d: Doc, columns: set<DocColumn>, v: Doc)
    ensures var n := MergeDoc(d, columns, v);
            DocTriggerFires(d, columns, n) <==> ViewDoc(n) != ViewDoc(d)
  {
    var n := MergeDoc(d, columns, v);
    if ViewDoc(n) != ViewDoc(d) {
      assert exists c :: c in columns && c in TRACKED_DOC_COLUMNS by {
        assert Filename in columns || Title in columns || Path in columns || Key in columns
            || Source in columns || Extension in columns || Modified in columns;
      }
      var c :| c in columns && c in TRACKED_DOC_COLUMNS;
      assert c in columns * TRACKED_DOC_COLUMNS;
    }
  }

  lemma SourceUpdateTracked(s: Src, columns: set<SrcColumn>, v: Src)
    ensures var n := MergeSrc(s, columns, v);
            SrcTriggerFires(s, columns, n) <==> ViewSrc(n) != ViewSrc(s)
  {
    var n := MergeSrc(s, columns, v);
    if ViewSrc(n) != ViewSrc(s) {
      assert Label in columns || SrcPath in columns;
      assert Label in columns ==> Label in columns * TRACKED_SRC_COLUMNS;
      assert SrcPath in columns ==> SrcPath in columns * TRACKED_SRC_COLUMNS;
    }
  }

  lemma {:induction false} UpdateSourcesTracked(sources: seq<Src>, id: nat, columns: set<SrcColumn>, v: Src)
    ensures var r := UpdateSources(sources, id, columns, v);
            r.1 == 0 ==> ViewSources(r.0) == ViewSources(sources)
  {
    if sources != [] {
      UpdateSourcesTracked(sources[1..], id, columns, v);
      var r, rest := UpdateSources(sources, id, columns, v), UpdateSources(sources[1..], id, columns, v);
      if r.1 == 0 {
        SourceUpdateTracked(sources[0], columns, v);
        assert ViewSrc(r.0[0]) == ViewSrc(sources[0]);
        forall k | 0 < k < |sources| ensures ViewSrc(r.0[k]) == ViewSrc(sources[k]) {
          assert ViewSources(rest.0)[k - 1] == ViewSources(sources[1..])[k - 1];
        }
      }
    }
  }

  /** How the generation relates two states of one incarnation of a database. */
  predicate Advances(a: Db, b: Db) {
    && a.generation.Some? && b.generation.Some?
    && a.generation.value.token == b.generation.value.token
    && a.generation.value.revision <= b.generation.value.revision
    && (a.generation.value.revision == b.generation.value.revision ==> SameView(a, b))
  }

  lemma ApplyAdvances(db: Db, s: Statement)
    requires db.generation.Some?
    ensures Advances(db, Apply(db, s))
  {
    hide MergeDoc, MergeSrc, DropDocs, DropSources, UpdateDocs, UpdateSources;
    match s
    case UpdateDoc(id, columns, v) => UpdateDocsTracked(db.docs, id, columns, v);
    case UpdateSource(id, columns, v) => UpdateSourcesTracked(db.sources, id, columns, v);
    case _ =>
  }

  /** Whatever a transaction does, an unchanged revision means an unchanged view. */
  lemma {:induction false} TransactionAdvances(db: Db, ss: seq<Statement>)
    requires db.generation.Some?
    ensures Advances(db, ApplyAll(db, ss))
    decreases |ss|
  {
    hide Apply;
    if ss != [] {
      ApplyAdvances(db, ss[0]);
      TransactionAdvances(Apply(db, ss[0]), ss[1..]);
    }
  }

  lemma {:induction false} TransactionWithoutGeneration(db: Db, ss: seq<Statement>)
    requires db.generation.None?
    ensures ApplyAll(db, ss).generation.None?
    decreases |ss|
  {
    hide UpdateDocs, UpdateSources, DropDocs, DropSources;
    if ss != [] { TransactionWithoutGeneration(Apply(db, ss[0]), ss[1..]); }
  }

  // ----- Resolution

  datatype Scope = Scope(
    after: Option<int>, before: Option<int>, sources: seq<nat>, extensions: seq<string>, prefixes: seq<string>)

  datatype Query = Query(question: string, scope: Scope, limit: int)

  /** The text matching that resolution relies on, as functions of the texts it is given. */
  datatype Matcher = Matcher(
    candidate: (string, DocView) -> bool,
    score: (string, DocView, SrcView) -> Option<seq<real>>,
    lower: string -> string, fold: string -> string,
    like: (string, string) -> bool)

  const MAX_DOCUMENTS := 48

  /** The WHERE clauses of the scope. */
  predicate InScope(m: Matcher, scope: Scope, d: DocView) {
    && (scope.after.Some? ==> scope.after.value <= d.modified)
    && (scope.before.Some? ==> d.modified < scope.before.value)
    && (scope.sources != [] ==> d.source in scope.sources)
    && (scope.extensions != [] ==> exists k :: 0 <= k < |scope.extensions| && m.lower(d.extension) == m.fold(scope.extensions[k]))
    && (scope.prefixes != [] ==> exists k :: 0 <= k < |scope.prefixes| && m.like(m.lower(d.key), scope.prefixes[k]))
  }

  function FindSource(sources: seq<Src>, id: nat): Option<SrcView> {
    if sources == [] then None
    else if sources[0].id == id then Some(ViewSrc(sources[0]))
    else FindSource(sources[1..], id)
  }

  /** The ranking key of one document, if it is a candidate in scope that matches. */
  function KeyFor(m: Matcher, q: Query, d: DocView, source: Option<SrcView>): Option<seq<real>> {
    if source.None? || !m.candidate(q.question, d) || !InScope(m, q.scope, d) then None
    else m.score(q.question, d, source.value)
  }

  function Found(m: Matcher, q: Query, docs: seq<Doc>, sources: seq<Src>): seq<Entry> {
    if docs == [] then [] else
      var d := ViewDoc(docs[0]);
      var key := KeyFor(m, q, d, FindSource(sources, d.source));
      (if key.Some? then [Entry(key.value, d.id)] else []) + Found(m, q, docs[1..], sources)
  }

  function TakeIds(xs: seq<Entry>, limit: int): (ids: seq<nat>)
    ensures limit >= 0 ==> |ids| <= limit
  {
    if xs == [] || limit <= 0 then [] else [xs[0].id] + TakeIds(xs[1..], limit - 1)
  }

  /** `_resolve_identity_documents` */
  function Resolve(m: Matcher, db: Db, q: Query): (ids: seq<nat>)
    ensures |ids| <= MAX_DOCUMENTS
  {
    TakeIds(Rank(Found(m, q, db.docs, db.sources)), if q.limit < MAX_DOCUMENTS then q.limit else MAX_DOCUMENTS)
  }

  lemma {:induction false} FindSourceReadsView(a: seq<Src>, b: seq<Src>, id: nat)
    requires ViewSources(a) == ViewSources(b)
    ensures FindSource(a, id) == FindSource(b, id)
  {
    if a != [] {
      assert ViewSources(a)[0] == ViewSources(b)[0];
      assert ViewSources(a[1..]) == ViewSources(a)[1..] && ViewSources(b[1..]) == ViewSources(b)[1..];
      FindSourceReadsView(a[1..], b[1..], id);
    }
  }

  lemma {:induction false} FoundReadsView(m: Matcher, q: Query, a: seq<Doc>, b: seq<Doc>, s: seq<Src>, t: seq<Src>)
    requires ViewDocs(a) == ViewDocs(b) && ViewSources(s) == ViewSources(t)
    ensures Found(m, q, a, s) == Found(m, q, b, t)
  {
    if a != [] {
      assert ViewDocs(a)[0] == ViewDocs(b)[0];
      assert ViewDocs(a[1..]) == ViewDocs(a)[1..] && ViewDocs(b[1..]) == ViewDocs(b)[1..];
      FindSourceReadsView(s, t, a[0].source);
      FoundReadsView(m, q, a[1..], b[1..], s, t);
    }
  }

  /** Two states with the same view resolve every query to the same documents. */
  lemma ResolveReadsView(m: Matcher, a: Db, b: Db, q: Query)
    requires SameView(a, b)
    ensures Resolve(m, a, q) == Resolve(m, b, q)
  {
    FoundReadsView(m, q, a.docs, b.docs, a.sources, b.sources);
  }

  // ----- When two states answer alike

  /** The document ids are a primary key. */
  ghost predicate UniqueIds(docs: seq<Doc>) {
    forall i, j :: 0 <= i < j < |docs| ==> docs[i].id != docs[j].id
  }

  lemma {:induction false} UpdateKeepsIds(docs: seq<Doc>, id: nat, columns: set<DocColumn>, v: Doc)
    ensures forall k :: 0 <= k < |docs| ==> UpdateDocs(docs, id, columns, v).0[k].id == docs[k].id
  {
    hide DocTriggerFires;
    if docs != [] {
      UpdateKeepsIds(docs[1..], id, columns, v);
      var r, rest := UpdateDocs(docs, id, columns, v), UpdateDocs(docs[1..], id, columns, v);
      forall k | 0 <= k < |docs| ensures r.0[k].id == docs[k].id {
        if k > 0 { assert r.0[k] == rest.0[k - 1] && docs[1..][k - 1] == docs[k]; }
      }
    }
  }

  lemma {:induction false} DropKeepsUnique(docs: seq<Doc>, gone: Doc -> bool)
    requires UniqueIds(docs)
    ensures UniqueIds(DropDocs(docs, gone).0) && forall d :: d in DropDocs(docs, gone).0 ==> d in docs
  {
    if docs != [] {
      var rest := docs[1..];
      assert docs == [docs[0]] + rest;
      DropKeepsUnique(rest, gone);
      var left := DropDocs(rest, gone).0;
      forall k | 0 <= k < |left| ensures left[k].id != docs[0].id {
        assert left[k] in rest;
        var j :| 0 <= j < |rest| && rest[j] == left[k];
        assert docs[j + 1] == left[k];
      }
    }
  }

  lemma {:induction false} TransactionKeepsUnique(db: Db, ss: seq<Statement>)
    requires UniqueIds(db.docs)
    ensures UniqueIds(ApplyAll(db, ss).docs)
    decreases |ss|
  {
    if ss != [] {
      ApplyKeepsUnique(db, ss[0]);
      TransactionKeepsUnique(Apply(db, ss[0]), ss[1..]);
    }
  }

  lemma ApplyKeepsUnique(db: Db, s: Statement)
    requires UniqueIds(db.docs)
    ensures UniqueIds(Apply(db, s).docs)
  {
    hide UpdateDocs, UpdateSources, DropSources, DropDocs;
    match s {
      case DeleteDoc(id) => DropKeepsUnique(db.docs, (d: Doc) => d.id == id);
      case DeleteSource(id) => DropKeepsUnique(db.docs, (d: Doc) => d.source == id);
      case UpdateDoc(id, columns, v) => UpdateKeepsIds(db.docs, id, columns, v);
      case _ =>
    }
  }

  /** The rows of the join that resolution selects from. */
  ghost function Rows(db: Db): set<(DocView, SrcView)> {
    set k | 0 <= k < |db.docs| && FindSource(db.sources, db.docs[k].source).Some? ::
      (ViewDoc(db.docs[k]), FindSource(db.sources, db.docs[k].source).value)
  }

  lemma SameViewSameRows(a: Db, b: Db)
    requires SameView(a, b)
    ensures Rows(a) == Rows(b)
  {
    forall row | row in Rows(a) ensures row in Rows(b) { RowInBoth(a, b, row); }
    forall row | row in Rows(b) ensures row in Rows(a) { RowInBoth(b, a, row); }
  }

  lemma RowInBoth(a: Db, b: Db, row: (DocView, SrcView))
    requires SameView(a, b) && row in Rows(a)
    ensures row in Rows(b)
  {
    var k :| 0 <= k < |a.docs| && FindSource(a.sources, a.docs[k].source).Some?
             && row == (ViewDoc(a.docs[k]), FindSource(a.sources, a.docs[k].source).value);
    assert |ViewDocs(a.docs)| == |ViewDocs(b.docs)| && ViewDocs(a.docs)[k] == ViewDocs(b.docs)[k];
    assert b.docs[k].source == a.docs[k].source;
    FindSourceReadsView(a.sources, b.sources, a.docs[k].source);
  }

  /** The entries of the ranking come from the joined rows, one for each that matches. */
  lemma {:induction false} FoundRows(m: Matcher, q: Query, docs: seq<Doc>, sources: seq<Src>, p: Entry)
    ensures p in Found(m, q, docs, sources) <==>
            exists k :: 0 <= k < |docs| && p.id == docs[k].id
              && KeyFor(m, q, ViewDoc(docs[k]), FindSource(sources, docs[k].source)) == Some(p.keys)
  {
    hide KeyFor, FindSource;
    if docs != [] {
      var rest := docs[1..];
      FoundRows(m, q, rest, sources, p);
      var first := KeyFor(m, q, ViewDoc(docs[0]), FindSource(sources, docs[0].source));
      var head := if first.Some? then [Entry(first.value, docs[0].id)] else [];
      assert Found(m, q, docs, sources) == head + Found(m, q, rest, sources);
      assert forall k :: 0 <= k < |rest| ==> rest[k] == docs[k + 1];
      if p in Found(m, q, rest, sources) {
        var k :| 0 <= k < |rest| && p.id == rest[k].id
                 && KeyFor(m, q, ViewDoc(rest[k]), FindSource(sources, rest[k].source)) == Some(p.keys);
        assert docs[k + 1] == rest[k];
      }
      if k :| 0 <= k < |docs| && p.id == docs[k].id
              && KeyFor(m, q, ViewDoc(docs[k]), FindSource(sources, docs[k].source)) == Some(p.keys) {
        if k > 0 { assert rest[k - 1] == docs[k]; }
      }
    }
  }

  lemma {:induction false} FoundOwnIds(m: Matcher, q: Query, docs: seq<Doc>, sources: seq<Src>)
    requires UniqueIds(docs)
    ensures DistinctIds(Found(m, q, docs, sources))
  {
    hide KeyFor, FindSource;
    if docs != [] {
      var rest := docs[1..];
      assert forall k :: 0 <= k < |rest| ==> rest[k] == docs[k + 1];
      FoundOwnIds(m, q, rest, sources);
      var ranked := Found(m, q, rest, sources);
      forall j | 0 <= j < |ranked| ensures ranked[j].id != docs[0].id {
        FoundRows(m, q, rest, sources, ranked[j]);
      }
    }
  }

  lemma FoundFromRows(m: Matcher, q: Query, a: Db, b: Db, p: Entry)
    requires Rows(a) == Rows(b) && p in Found(m, q, a.docs, a.sources)
    ensures p in Found(m, q, b.docs, b.sources)
  {
    FoundRows(m, q, a.docs, a.sources, p);
    FoundRows(m, q, b.docs, b.sources, p);
    var k :| 0 <= k < |a.docs| && p.id == a.docs[k].id
             && KeyFor(m, q, ViewDoc(a.docs[k]), FindSource(a.sources, a.docs[k].source)) == Some(p.keys);
    var row := (ViewDoc(a.docs[k]), FindSource(a.sources, a.docs[k].source).value);
    assert row in Rows(a);
    var j :| 0 <= j < |b.docs| && FindSource(b.sources, b.docs[j].source).Some?
             && row == (ViewDoc(b.docs[j]), FindSource(b.sources, b.docs[j].source).value);
    assert ViewDoc(b.docs[j]).id == p.id;
  }

  /** States with the same joined rows resolve every query to the same documents. */
  lemma SameRowsSameAnswer(m: Matcher, a: Db, b: Db, q: Query)
    requires UniqueIds(a.docs) && UniqueIds(b.docs) && Rows(a) == Rows(b)
    ensures Resolve(m, a, q) == Resolve(m, b, q)
  {
    var x, y := Found(m, q, a.docs, a.sources), Found(m, q, b.docs, b.sources);
    FoundOwnIds(m, q, a.docs, a.sources);
    FoundOwnIds(m, q, b.docs, b.sources);
    forall p ensures p in x <==> p in y {
      if p in x { FoundFromRows(m, q, a, b, p); }
      if p in y { FoundFromRows(m, q, b, a, p); }
    }
    hide Found, Rank;
    SameEntries(x, y);
    RankingIndependentOfOrder(x, y);
  }

  // ----- What resolution answers

  /** A joined row that answers the query, with its entry in the ranking. */
  ghost predicate Answers(m: Matcher, q: Query, d: DocView, s: SrcView, e: Entry) {
    && e.id == d.id && m.candidate(q.question, d) && m.score(q.question, d, s) == Some(e.keys)
    && (q.scope.after.Some? ==> d.modified >= q.scope.after.value)
    && (q.scope.before.Some? ==> d.modified < q.scope.before.value)
    && (q.scope.sources == [] || d.source in q.scope.sources)
    && (q.scope.extensions == [] || exists x :: x in q.scope.extensions && m.fold(x) == m.lower(d.extension))
    && (q.scope.prefixes == [] || exists x :: x in q.scope.prefixes && m.like(m.lower(d.key), x))
  }

  ghost predicate AnswersIn(m: Matcher, db: Db, q: Query, e: Entry) {
    exists row :: row in Rows(db) && Answers(m, q, row.0, row.1, e)
  }

  lemma AnswersIff(m: Matcher, q: Query, d: DocView, s: SrcView, e: Entry)
    ensures Answers(m, q, d, s, e) <==> e.id == d.id && KeyFor(m, q, d, Some(s)) == Some(e.keys)
  {
  }

  lemma FoundAnswers(m: Matcher, db: Db, q: Query, e: Entry)
    ensures e in Found(m, q, db.docs, db.sources) <==> AnswersIn(m, db, q, e)
  {
    hide KeyFor, Answers, FindSource;
    FoundRows(m, q, db.docs, db.sources, e);
    if k :| 0 <= k < |db.docs| && e.id == db.docs[k].id
            && KeyFor(m, q, ViewDoc(db.docs[k]), FindSource(db.sources, db.docs[k].source)) == Some(e.keys) {
      NoSourceNoKey(m, q, ViewDoc(db.docs[k]));
      var row := (ViewDoc(db.docs[k]), FindSource(db.sources, db.docs[k].source).value);
      AnswersIff(m, q, row.0, row.1, e);
      assert row in Rows(db);
    }
    if row :| row in Rows(db) && Answers(m, q, row.0, row.1, e) {
      AnswersIff(m, q, row.0, row.1, e);
      var k :| 0 <= k < |db.docs| && FindSource(db.sources, db.docs[k].source).Some?
               && row == (ViewDoc(db.docs[k]), FindSource(db.sources, db.docs[k].source).value);
    }
  }

  lemma NoSourceNoKey(m: Matcher, q: Query, d: DocView)
    ensures KeyFor(m, q, d, None) == None
  {
  }

  lemma {:induction false} TakeIdsIs(xs: seq<Entry>, limit: int)
    ensures |TakeIds(xs, limit)| == if limit <= 0 then 0 else if |xs| <= limit then |xs| else limit
    ensures forall k :: 0 <= k < |TakeIds(xs, limit)| ==> TakeIds(xs, limit)[k] == xs[k].id
  {
    if xs != [] && limit > 0 { TakeIdsIs(xs[1..], limit - 1); }
  }

  /**
   * `order` holds an entry for each joined row that answers the query and for nothing else, each before all that it
   * precedes; the ids returned are its first ones, at most as many as asked for and at most 48.
   */
  lemma ResolveIs(m: Matcher, db: Db, q: Query) returns (order: seq<Entry>)
    requires UniqueIds(db.docs)
    ensures forall e :: e in order <==> AnswersIn(m, db, q, e)
    ensures DistinctIds(order) && forall i, j :: 0 <= i < j < |order| ==> Precedes(order[i], order[j])
    ensures var ids := Resolve(m, db, q);
            && |ids| <= |order| && (forall k :: 0 <= k < |ids| ==> ids[k] == order[k].id)
            && |ids| == if q.limit < 0 then 0
                        else if |order| <= q.limit && |order| <= 48 then |order|
                        else if q.limit < 48 then q.limit else 48
  {
    var found := Found(m, q, db.docs, db.sources);
    order := Rank(found);
    FoundOwnIds(m, q, db.docs, db.sources);
    RankInOrder(found);
    RankKeepsDistinct(found);
    Sorting.SameMembers(found, order);
    forall e ensures e in order <==> AnswersIn(m, db, q, e) { FoundAnswers(m, db, q, e); }
    TakeIdsIs(order, if q.limit < MAX_DOCUMENTS then q.limit else MAX_DOCUMENTS);
    hide Found, Rank, AnswersIn, Precedes;
    forall i, j | 0 <= i < j < |order| ensures Precedes(order[i], order[j]) {
      assert order[i].id != order[j].id;
    }
  }

  ghost predicate UniqueSources(sources: seq<Src>) {
    forall i, j :: 0 <= i < j < |sources| ==> sources[i].id != sources[j].id
  }

  lemma {:induction false} FindSourceIs(sources: seq<Src>, id: nat)
    ensures var found := FindSource(sources, id);
            if found.Some? then exists j :: 0 <= j < |sources| && sources[j].id == id && found.value == ViewSrc(sources[j])
            else forall j :: 0 <= j < |sources| ==> sources[j].id != id
  {
    if sources != [] && sources[0].id != id {
      FindSourceIs(sources[1..], id);
      if FindSource(sources[1..], id).Some? {
        var j :| 0 <= j < |sources[1..]| && sources[1..][j].id == id && FindSource(sources, id).value == ViewSrc(sources[1..][j]);
        assert sources[j + 1] == sources[1..][j];
      } else {
        assert forall j :: 0 < j < |sources| ==> sources[j] == sources[1..][j - 1];
      }
    }
  }

  /** The rows are the join of documents and sources on the source id. */
  lemma RowsAreTheJoin(db: Db, row: (DocView, SrcView))
    requires UniqueSources(db.sources)
    ensures row in Rows(db) <==>
            exists i, j :: 0 <= i < |db.docs| && 0 <= j < |db.sources| && db.sources[j].id == db.docs[i].source
                           && row == (ViewDoc(db.docs[i]), ViewSrc(db.sources[j]))
  {
    hide FindSource;
    if row in Rows(db) {
      var i :| 0 <= i < |db.docs| && FindSource(db.sources, db.docs[i].source).Some?
               && row == (ViewDoc(db.docs[i]), FindSource(db.sources, db.docs[i].source).value);
      FindSourceIs(db.sources, db.docs[i].source);
      var j :| 0 <= j < |db.sources| && db.sources[j].id == db.docs[i].source && row.1 == ViewSrc(db.sources[j]);
    }
    if i, j :| 0 <= i < |db.docs| && 0 <= j < |db.sources| && db.sources[j].id == db.docs[i].source
               && row == (ViewDoc(db.docs[i]), ViewSrc(db.sources[j])) {
      FindSourceIs(db.sources, db.docs[i].source);
      assert FindSource(db.sources, db.docs[i].source).value == row.1;
    }
  }

  /** Every matcher and every query resolve alike. */
  ghost predicate AnswerAlike(a: Db, b: Db) {
    forall m: Matcher, q: Query :: Resolve(m, a, q) == Resolve(m, b, q)
  }

  /** The matcher that finds one joined row and nothing else. */
  function OnlyRow(row: (DocView, SrcView)): Matcher {
    Matcher((_, d) => d == row.0, (_, d, s) => if (d, s) == row then Some([0.0]) else None, x => x, x => x, (_, _) => true)
  }

  function AnyOne(): Query {
    Query("", Scope(None, None, [], [], []), 1)
  }

  lemma {:induction false} OnlyRowRanks(row: (DocView, SrcView), docs: seq<Doc>, sources: seq<Src>)
    ensures var x := Found(OnlyRow(row), AnyOne(), docs, sources);
            && (forall p :: p in x ==> p == Entry([0.0], row.0.id))
            && (x != [] <==> row in Rows(Db(docs, sources, None)))
  {
    var m, q, db := OnlyRow(row), AnyOne(), Db(docs, sources, None);
    var x := Found(m, q, docs, sources);
    forall p | p in x ensures p == Entry([0.0], row.0.id) && row in Rows(db) {
      FoundRows(m, q, docs, sources, p);
      var k :| 0 <= k < |docs| && p.id == docs[k].id
               && KeyFor(m, q, ViewDoc(docs[k]), FindSource(sources, docs[k].source)) == Some(p.keys);
      assert row == (ViewDoc(docs[k]), FindSource(sources, docs[k].source).value);
    }
    if x != [] {
      assert x[0] in x;
    }
    if row in Rows(db) {
      var k :| 0 <= k < |docs| && FindSource(sources, docs[k].source).Some?
               && row == (ViewDoc(docs[k]), FindSource(sources, docs[k].source).value);
      assert KeyFor(m, q, ViewDoc(docs[k]), FindSource(sources, docs[k].source)) == Some([0.0]);
      FoundRows(m, q, docs, sources, Entry([0.0], docs[k].id));
    }
  }

  lemma OnlyRowAnswers(row: (DocView, SrcView), db: Db)
    ensures Resolve(OnlyRow(row), db, AnyOne()) != [] <==> row in Rows(db)
  {
    OnlyRowRanks(row, db.docs, db.sources);
    var x := Found(OnlyRow(row), AnyOne(), db.docs, db.sources);
    assert Rows(Db(db.docs, db.sources, None)) == Rows(db);
    Sorting.SameMembers(x, Rank(x));
  }

  /** Two states resolve alike for every matcher and query exactly when they join to the same rows. */
  lemma AnswerAlikeIffSameRows(a: Db, b: Db)
    requires UniqueIds(a.docs) && UniqueIds(b.docs)
    ensures AnswerAlike(a, b) <==> Rows(a) == Rows(b)
  {
    hide Resolve, Rows;
    if Rows(a) == Rows(b) {
      forall m: Matcher, q: Query ensures Resolve(m, a, q) == Resolve(m, b, q) { SameRowsSameAnswer(m, a, b, q); }
    } else {
      var row :| (row in Rows(a)) != (row in Rows(b));
      OnlyRowAnswers(row, a);
      OnlyRowAnswers(row, b);
      assert Resolve(OnlyRow(row), a, AnyOne()) != Resolve(OnlyRow(row), b, AnyOne());
    }
  }

  /** A query without a scope that asks for one document. */
  function FirstOnly(question: string): Query {
    Query(question, Scope(None, None, [], [], []), 1)
  }

  /**
   * Two continuations of one state, as after restoring an older copy of the file, reach the same generation and
   * resolve a question to different documents: the revision only orders versions of one line of commits.
   */
  lemma RestoredCopyMayDiverge(m: Matcher, question: string, g: Generation, source: Src, one: Doc, two: Doc)
    requires one.id != two.id && one.source == two.source == source.id
    requires m.candidate(question, ViewDoc(one)) && m.score(question, ViewDoc(one), ViewSrc(source)).Some?
    requires m.candidate(question, ViewDoc(two)) && m.score(question, ViewDoc(two), ViewSrc(source)).Some?
    ensures var db := Db([], [source], Some(g));
            var a, b := ApplyAll(db, [InsertDoc(one)]), ApplyAll(db, [InsertDoc(two)]);
            && a.generation == b.generation == Some(Generation(g.token, g.revision + 1))
            && Resolve(m, a, FirstOnly(question)) == [one.id] && Resolve(m, b, FirstOnly(question)) == [two.id]
  {
    hide ApplyAll, Resolve, ViewDoc, ViewSrc;
    FirstInsert(source, g, one);
    FirstInsert(source, g, two);
    OneDocument(m, FirstOnly(question), one, source);
    OneDocument(m, FirstOnly(question), two, source);
  }

  lemma FirstInsert(source: Src, g: Generation, d: Doc)
    requires d.source == source.id
    ensures ApplyAll(Db([], [source], Some(g)), [InsertDoc(d)]) == Db([d], [source], Some(Generation(g.token, g.revision + 1)))
  {
    var db := Db([], [source], Some(g));
    assert [InsertDoc(d)][1..] == [] && db.docs + [d] == [d];
    assert ApplyAll(db, [InsertDoc(d)]) == Apply(db, InsertDoc(d));
  }

  lemma OneDocument(m: Matcher, q: Query, d: Doc, s: Src)
    requires m.candidate(q.question, ViewDoc(d)) && m.score(q.question, ViewDoc(d), ViewSrc(s)).Some?
    requires q.scope == Scope(None, None, [], [], []) && q.limit == 1 && d.source == s.id
    ensures forall g :: Resolve(m, Db([d], [s], g), q) == [d.id]
  {
    var key := m.score(q.question, ViewDoc(d), ViewSrc(s)).value;
    assert FindSource([s], d.source) == Some(ViewSrc(s));
    assert Found(m, q, [d], [s]) == [Entry(key, d.id)] by {
      assert [d][1..] == [];
      assert Found(m, q, [], [s]) == [];
    }
    var r := [Entry(key, d.id)];
    RankOne(r[0]);
    assert r == [r[0]];
    assert TakeIds(r, 1) == [d.id] + TakeIds(r[1..], 0);
  }
}
