/**
 * The single-flight cache of identity resolutions.  Every method is one atomic step of some thread or
 * writer, so a run is any sequence of calls; what `Valid()` says holds after each of them.
 */
module IdentityCache {
  import opened Basics
  import opened IdentityResolver
  import opened Wrappers

  const MAX_ENTRIES := 128
  const MAX_KEY_CHARS := 8192
  const MAX_BUILDING := 16

  datatype CacheKey = CacheKey(path: string, generation: Generation, query: Query)

  datatype Phase =
    | Bypassing
    | Waiting
    | Served(ids: seq<nat>)
    | Missing
    | Claiming

  /** A thread inside the resolution block; `snapshot` is what its read transaction sees. */
  datatype Reader = Reader(path: string, snapshot: Db, query: Query, phase: Phase)

  predicate Keyed(r: Reader) {
    !r.phase.Bypassing? && r.snapshot.generation.Some?
  }

  function KeyOf(r: Reader): CacheKey
    requires Keyed(r)
  {
    CacheKey(r.path, r.snapshot.generation.value, r.query)
  }

  // ----- The versions of a file

  predicate SameToken(a: Db, b: Db) {
    a.generation.Some? && b.generation.Some? && a.generation.value.token == b.generation.value.token
  }

  /** The versions of one file, first to last: those of one incarnation only ever advance. */
  ghost predicate Line(vs: seq<Db>) {
    forall i, j :: 0 <= i <= j < |vs| && SameToken(vs[i], vs[j]) ==> Advances(vs[i], vs[j])
  }

  /** The file is new, or replaced, or has just got its generation row: nobody has seen its token. */
  ghost predicate UnseenToken(vs: seq<Db>, db: Db) {
    forall i :: 0 <= i < |vs| ==> !SameToken(vs[i], db)
  }

  /** The version continues the line of the ones before it, or begins a new one. */
  ghost predicate Follows(vs: seq<Db>, db: Db) {
    UnseenToken(vs, db) || (|vs| > 0 && Advances(vs[|vs| - 1], db))
  }

  lemma LineGrows(vs: seq<Db>, db: Db)
    requires Line(vs) && Follows(vs, db)
    ensures Line(vs + [db])
  {
    var ws := vs + [db];
    forall i, j | 0 <= i <= j < |ws| && SameToken(ws[i], ws[j]) ensures Advances(ws[i], ws[j]) {
      if j < |vs| {
        assert ws[i] == vs[i] && ws[j] == vs[j];
      } else if i < |vs| {
        assert ws[i] == vs[i];
        assert Advances(vs[i], vs[|vs| - 1]);
      }
    }
  }

  predicate SameGeneration(a: Db, b: Db) {
    a.generation.Some? && a.generation == b.generation
  }

  /** Every version has its document ids as a primary key. */
  ghost predicate KeyedRows(vs: seq<Db>) {
    forall i :: 0 <= i < |vs| ==> UniqueIds(vs[i].docs)
  }

  /** Versions with one generation join to the same rows. */
  ghost predicate Coherent(vs: seq<Db>) {
    forall i, j :: 0 <= i < |vs| && 0 <= j < |vs| && SameGeneration(vs[i], vs[j]) ==> Rows(vs[i]) == Rows(vs[j])
  }

  /** What a further version must meet to keep the others coherent. */
  ghost predicate Agrees(vs: seq<Db>, db: Db) {
    forall i :: 0 <= i < |vs| && SameGeneration(vs[i], db) ==> Rows(vs[i]) == Rows(db)
  }

  lemma CoherentGrows(vs: seq<Db>, db: Db)
    requires Coherent(vs)
    ensures Coherent(vs + [db]) <==> Agrees(vs, db)
  {
    hide Rows;
    var ws := vs + [db];
    if Coherent(ws) {
      forall i | 0 <= i < |vs| && SameGeneration(vs[i], db) ensures Rows(vs[i]) == Rows(db) {
        assert ws[i] == vs[i] && ws[|vs|] == db;
      }
    }
    if Agrees(vs, db) {
      forall i, j | 0 <= i < |ws| && 0 <= j < |ws| && SameGeneration(ws[i], ws[j]) ensures Rows(ws[i]) == Rows(ws[j]) {
        if i < |vs| { assert ws[i] == vs[i]; }
        if j < |vs| { assert ws[j] == vs[j]; }
      }
    }
  }

  /** On a line of commits versions with one generation are coherent. */
  lemma LineIsCoherent(vs: seq<Db>)
    requires Line(vs)
    ensures Coherent(vs)
  {
    hide Rows, SameView;
    forall i, j | 0 <= i < |vs| && 0 <= j < |vs| && SameGeneration(vs[i], vs[j]) ensures Rows(vs[i]) == Rows(vs[j]) {
      assert SameToken(vs[i], vs[j]) && SameToken(vs[j], vs[i]);
      if i <= j {
        assert Advances(vs[i], vs[j]);
        SameViewSameRows(vs[i], vs[j]);
      } else {
        assert Advances(vs[j], vs[i]);
        SameViewSameRows(vs[j], vs[i]);
      }
    }
  }

  /** Two versions with the same generation answer every query alike. */
  lemma SameGenerationSameAnswer(m: Matcher, vs: seq<Db>, i: nat, j: nat, q: Query)
    requires Coherent(vs) && KeyedRows(vs) && i < |vs| && j < |vs| && SameGeneration(vs[i], vs[j])
    ensures Resolve(m, vs[i], q) == Resolve(m, vs[j], q)
  {
    hide Resolve, Rows;
    SameRowsSameAnswer(m, vs[i], vs[j], q);
  }

  /** Answers may be shared by generation, for every matcher and query, exactly when the versions are coherent. */
  lemma CoherentIffShareable(vs: seq<Db>)
    requires KeyedRows(vs)
    ensures Coherent(vs) <==>
            forall i, j :: 0 <= i < |vs| && 0 <= j < |vs| && SameGeneration(vs[i], vs[j]) ==> AnswerAlike(vs[i], vs[j])
  {
    hide AnswerAlike, Rows;
    forall i, j | 0 <= i < |vs| && 0 <= j < |vs|
      ensures AnswerAlike(vs[i], vs[j]) <==> Rows(vs[i]) == Rows(vs[j])
    {
      AnswerAlikeIffSameRows(vs[i], vs[j]);
    }
  }

  // ----- The parts of the invariant

  /** Files that were never replaced by a copy under a known token have one line of versions. */
  ghost predicate Lines(versions: map<string, seq<Db>>, restored: set<string>) {
    forall path :: path in versions ==> KeyedRows(versions[path]) && (path !in restored ==> Line(versions[path]))
  }

  /** A cached answer is the resolution of some version with the key's generation. */
  ghost predicate Backed(m: Matcher, versions: map<string, seq<Db>>, key: CacheKey, ids: seq<nat>) {
    && key.path in versions
    && exists db :: db in versions[key.path] && db.generation == Some(key.generation) && ids == Resolve(m, db, key.query)
  }

  ghost predicate AllBacked(m: Matcher, versions: map<string, seq<Db>>, results: map<CacheKey, seq<nat>>) {
    forall key :: key in results ==> Backed(m, versions, key, results[key])
  }

  /** What the docstring promises of memory: short keys and few identifiers. */
  ghost predicate Small(scopeLength: Scope -> nat, results: map<CacheKey, seq<nat>>) {
    forall key :: key in results ==>
      |key.path| + |key.query.question| + scopeLength(key.query.scope) <= MAX_KEY_CHARS && |results[key]| <= MAX_DOCUMENTS
  }

  ghost predicate ReaderFits(scopeLength: Scope -> nat, versions: map<string, seq<Db>>, r: Reader) {
    !r.phase.Bypassing? ==>
      && r.snapshot.generation.Some?
      && r.path in versions && r.snapshot in versions[r.path]
      && |r.path| + |r.query.question| + scopeLength(r.query.scope) <= MAX_KEY_CHARS
  }

  ghost predicate ReadersFit(scopeLength: Scope -> nat, versions: map<string, seq<Db>>, readers: map<nat, Reader>) {
    forall id :: id in readers ==> ReaderFits(scopeLength, versions, readers[id])
  }

  predicate Claims(r: Reader, key: CacheKey) {
    r.phase.Claiming? && r.snapshot.generation.Some? && KeyOf(r) == key
  }

  /** A key is being built exactly when one reader, and only one, has claimed it. */
  ghost predicate OneClaimant(readers: map<nat, Reader>, building: set<CacheKey>) {
    && (forall key :: key in building ==> exists id :: id in readers && Claims(readers[id], key))
    && (forall id, key :: id in readers && Claims(readers[id], key) ==> key in building)
    && (forall i, j, key :: i in readers && j in readers && Claims(readers[i], key) && Claims(readers[j], key) ==> i == j)
  }

  /** The recency order lists the cached keys, each once, the oldest first. */
  ghost predicate Recency(order: seq<CacheKey>, results: map<CacheKey, seq<nat>>) {
    Distinct(order) && forall key :: key in order <==> key in results
  }

  /** A key moved to the recent end; an entry that was not there is appended. */
  function Touch(order: seq<CacheKey>, key: CacheKey): seq<CacheKey> {
    Without(order, key) + [key]
  }

  lemma TouchKeeps(order: seq<CacheKey>, key: CacheKey, results: map<CacheKey, seq<nat>>, ids: seq<nat>)
    requires Recency(order, results)
    ensures Recency(Touch(order, key), results[key := ids])
    ensures |Touch(order, key)| <= |order| + 1
    ensures key in results ==> |Touch(order, key)| == |order|
  {
    WithoutIs(order, key);
  }

  lemma TouchHit(order: seq<CacheKey>, key: CacheKey, results: map<CacheKey, seq<nat>>, touched: seq<CacheKey>)
    requires Recency(order, results) && key in results && touched == Touch(order, key)
    ensures Recency(touched, results) && |touched| == |order|
  {
    TouchKeeps(order, key, results, results[key]);
    assert results[key := results[key]] == results;
  }

  /** How many entries the map holds, counted through the order. */
  lemma {:induction false} OrderCounts(order: seq<CacheKey>, results: map<CacheKey, seq<nat>>)
    requires Recency(order, results)
    ensures |results| == |order|
    decreases |order|
  {
    if order == [] {
      assert results == map[];
    } else {
      var rest, fewer := order[1..], results - {order[0]};
      EvictKeeps(order, results);
      OrderCounts(rest, fewer);
      assert results.Keys == fewer.Keys + {order[0]};
    }
  }

  lemma EvictKeeps(order: seq<CacheKey>, results: map<CacheKey, seq<nat>>)
    requires Recency(order, results) && order != []
    ensures order[0] in results && Recency(order[1..], results - {order[0]})
  {
    assert order[0] in order;
    assert Without(order, order[0]) == order[1..];
    WithoutIs(order, order[0]);
  }

  lemma ReaderPut(scopeLength: Scope -> nat, versions: map<string, seq<Db>>, readers: map<nat, Reader>, id: nat, phase: Phase,
                  more: map<nat, Reader>)
    requires ReadersFit(scopeLength, versions, readers)
    requires id in readers && !readers[id].phase.Bypassing?
    requires more == readers[id := readers[id].(phase := phase)]
    ensures ReadersFit(scopeLength, versions, more)
  {
    assert ReaderFits(scopeLength, versions, readers[id]);
    forall i | i in more ensures ReaderFits(scopeLength, versions, more[i]) {
      assert ReaderFits(scopeLength, versions, readers[i]);
    }
  }

  lemma Claimant(readers: map<nat, Reader>, building: set<CacheKey>, key: CacheKey)
    requires OneClaimant(readers, building) && key in building
    ensures exists other :: other in readers && Claims(readers[other], key)
  {
  }

  lemma LinesGrow(versions: map<string, seq<Db>>, restored: set<string>, path: string, db: Db, line: bool)
    requires Lines(versions, restored) && UniqueIds(db.docs)
    requires var vs := if path in versions then versions[path] else [];
             line ==> path !in restored && Follows(vs, db)
    ensures var vs := if path in versions then versions[path] else [];
            Lines(versions[path := vs + [db]], if line then restored else restored + {path})
  {
    hide Advances, UniqueIds;
    var vs := if path in versions then versions[path] else [];
    if line { LineGrows(vs, db); }
  }

  /** A transaction leads to a version that advances the one before, or has no generation either. */
  lemma NextVersion(versions: map<string, seq<Db>>, restored: set<string>, path: string, statements: seq<Statement>)
    requires Lines(versions, restored) && path in versions && versions[path] != []
    ensures var vs := versions[path];
            var db := ApplyAll(Last(vs), statements);
            UniqueIds(db.docs) && Follows(vs, db)
  {
    hide Advances, Apply, UniqueIds, Line;
    var last := Last(versions[path]);
    assert UniqueIds(last.docs);
    TransactionKeepsUnique(last, statements);
    if last.generation.Some? {
      TransactionAdvances(last, statements);
    } else {
      TransactionWithoutGeneration(last, statements);
    }
  }

  lemma VersionsGrow(m: Matcher, scopeLength: Scope -> nat, versions: map<string, seq<Db>>, path: string, db: Db,
                     results: map<CacheKey, seq<nat>>, readers: map<nat, Reader>)
    requires AllBacked(m, versions, results) && ReadersFit(scopeLength, versions, readers)
    ensures var vs := if path in versions then versions[path] else [];
            AllBacked(m, versions[path := vs + [db]], results) && ReadersFit(scopeLength, versions[path := vs + [db]], readers)
  {
    hide Resolve;
    var vs := if path in versions then versions[path] else [];
    var more := versions[path := vs + [db]];
    forall key | key in results ensures Backed(m, more, key, results[key]) {
      assert Backed(m, versions, key, results[key]);
      var w :| w in versions[key.path] && w.generation == Some(key.generation) && results[key] == Resolve(m, w, key.query);
      assert w in more[key.path];
    }
    forall id | id in readers ensures ReaderFits(scopeLength, more, readers[id]) {
      assert ReaderFits(scopeLength, versions, readers[id]);
    }
  }

  /** A backed answer is the reader's own, if the versions of its file are coherent. */
  lemma HitIsFresh(m: Matcher, versions: map<string, seq<Db>>, results: map<CacheKey, seq<nat>>, r: Reader)
    requires AllBacked(m, versions, results)
    requires Keyed(r) && r.path in versions && r.snapshot in versions[r.path]
    requires Coherent(versions[r.path]) && KeyedRows(versions[r.path]) && KeyOf(r) in results
    ensures results[KeyOf(r)] == Resolve(m, r.snapshot, r.query)
  {
    hide Resolve, Coherent, KeyedRows;
    var ids := results[KeyOf(r)];
    assert Backed(m, versions, KeyOf(r), ids);
    var vs := versions[r.path];
    var db :| db in vs && db.generation == Some(KeyOf(r).generation) && ids == Resolve(m, db, r.query);
    var i :| 0 <= i < |vs| && vs[i] == db;
    var j :| 0 <= j < |vs| && vs[j] == r.snapshot;
    SameGenerationSameAnswer(m, vs, i, j, r.query);
  }

  lemma NewClaim(readers: map<nat, Reader>, building: set<CacheKey>, id: nat, r: Reader, more: map<nat, Reader>)
    requires OneClaimant(readers, building) && id in readers && !readers[id].phase.Claiming?
    requires r.phase.Claiming? && r.snapshot.generation.Some? && KeyOf(r) !in building
    requires more == readers[id := r]
    ensures OneClaimant(more, building + {KeyOf(r)})
  {
    forall key | key in building + {KeyOf(r)} ensures exists i :: i in more && Claims(more[i], key) {
      if key == KeyOf(r) {
        assert Claims(more[id], key);
      } else {
        var i :| i in readers && Claims(readers[i], key);
        assert i != id && more[i] == readers[i];
      }
    }
  }

  lemma ClaimKept(readers: map<nat, Reader>, building: set<CacheKey>, id: nat, r: Reader, more: map<nat, Reader>)
    requires OneClaimant(readers, building) && (id in readers ==> !readers[id].phase.Claiming?) && !r.phase.Claiming?
    requires more == readers[id := r]
    ensures OneClaimant(more, building)
  {
    forall key | key in building ensures exists i :: i in more && Claims(more[i], key) {
      var i :| i in readers && Claims(readers[i], key);
      assert i != id && more[i] == readers[i];
    }
  }

  lemma ClaimReleased(readers: map<nat, Reader>, building: set<CacheKey>, id: nat)
    requires OneClaimant(readers, building) && id in readers
    ensures var r := readers[id];
            OneClaimant(readers - {id}, if r.phase.Claiming? && Keyed(r) then building - {KeyOf(r)} else building)
  {
    var r, fewer := readers[id], readers - {id};
    var left := if r.phase.Claiming? && Keyed(r) then building - {KeyOf(r)} else building;
    forall key | key in left ensures exists i :: i in fewer && Claims(fewer[i], key) {
      var i :| i in readers && Claims(readers[i], key);
      assert i != id;
      assert i in fewer && fewer[i] == readers[i];
    }
    forall i, key | i in fewer && Claims(fewer[i], key) ensures key in left {
      assert Claims(readers[i], key);
      assert Claims(r, key) ==> i == id;
    }
  }

  /** What a reader that does not wait comes away with. */
  ghost predicate Outcome(m: Matcher, versions: map<string, seq<Db>>, results: map<CacheKey, seq<nat>>, r: Reader, phase: Phase,
                          orderWas: seq<CacheKey>, orderIs: seq<CacheKey>, buildingWas: set<CacheKey>, buildingIs: set<CacheKey>)
    requires Keyed(r)
  {
    var key := KeyOf(r);
    match phase
    case Served(ids) =>
      && key in results && ids == results[key]
      && (r.path in versions && Coherent(versions[r.path]) ==> ids == Resolve(m, r.snapshot, r.query))
      && orderIs == Touch(orderWas, key) && buildingIs == buildingWas
    case Claiming => key !in results && buildingIs == buildingWas + {key} && orderIs == orderWas
    case Missing => key !in results && |buildingIs| == 16 && buildingIs == buildingWas && orderIs == orderWas
    case _ => false
  }

  class Cache {
    const matcher: Matcher
    const scopeLength: Scope -> nat
    /** Every committed version of every file, the current one last. */
    var versions: map<string, seq<Db>>
    var results: map<CacheKey, seq<nat>>
    var order: seq<CacheKey>
    var building: set<CacheKey>
    var readers: map<nat, Reader>
    /** The files that were replaced by a copy whose token had been seen. */
    ghost var restored: set<string>

    ghost predicate Valid()
      reads this
    {
      && Lines(versions, restored)
      && AllBacked(matcher, versions, results)
      && Small(scopeLength, results)
      && ReadersFit(scopeLength, versions, readers)
      && OneClaimant(readers, building)
      && Recency(order, results)
      && |order| <= MAX_ENTRIES
      && |building| <= MAX_BUILDING
    }

    constructor (matcher: Matcher, scopeLength: Scope -> nat)
      ensures Valid() && this.matcher == matcher && this.scopeLength == scopeLength
      ensures results == map[] && building == {} && readers == map[] && versions == map[] && restored == {}
    {
      this.matcher, this.scopeLength := matcher, scopeLength;
      versions, results, order, building, readers := map[], map[], [], {}, map[];
      restored := {};
    }

    ghost function VersionsOf(path: string): seq<Db>
      reads this
    {
      if path in versions then versions[path] else []
    }

    /** A file that was never restored is coherent. */
    lemma LinesAreCoherent(path: string)
      requires Valid() && path !in restored
      ensures Coherent(VersionsOf(path))
    {
      if path in versions { LineIsCoherent(versions[path]); }
    }

    /** The versions of one file grow by one. */
    method Append(path: string, db: Db)
      requires Valid() && UniqueIds(db.docs)
      modifies this`versions, this`restored
      ensures Valid() && versions == old(versions)[path := old(VersionsOf(path)) + [db]]
      ensures restored == old(restored) + if path in restored then {path} else {}
      ensures old(path !in restored) && Follows(old(VersionsOf(path)), db) ==> path !in restored
      ensures old(Coherent(VersionsOf(path))) ==> (Coherent(VersionsOf(path)) <==> Agrees(old(VersionsOf(path)), db))
    {
      hide Follows, Coherent, Agrees, AllBacked, Small, ReadersFit, OneClaimant, Recency, UniqueIds;
      var vs := if path in versions then versions[path] else [];
      ghost var line := path !in restored && Follows(vs, db);
      LinesGrow(versions, restored, path, db, line);
      VersionsGrow(matcher, scopeLength, versions, path, db, results, readers);
      if Coherent(vs) { CoherentGrows(vs, db); }
      versions := versions[path := vs + [db]];
      restored := if line then restored else restored + {path};
    }

    /**
     * A file appears or is replaced, or an older catalog gets its generation row.  A copy whose token has been
     * seen is published like any other file: the cache stays coherent if and only if the copy joins to the same
     * rows as every version of its generation.
     */
    method Publication(path: string, db: Db)
      requires Valid() && UniqueIds(db.docs)
      modifies this`versions, this`restored
      ensures Valid() && versions == old(versions)[path := old(VersionsOf(path)) + [db]]
      ensures UnseenToken(old(VersionsOf(path)), db) ==> restored == old(restored)
      ensures old(Coherent(VersionsOf(path))) ==> (Coherent(VersionsOf(path)) <==> Agrees(old(VersionsOf(path)), db))
    {
      hide Valid, Coherent, Agrees, UnseenToken;
      Append(path, db);
    }

    /**
     * A writer commits; a transaction that rolls back is no step at all.  The commit keeps a file that was never
     * restored coherent; a restored one if and only if the outcome agrees with the versions of its generation.
     */
    method Commit(path: string, statements: seq<Statement>)
      requires Valid() && path in versions && versions[path] != []
      modifies this`versions, this`restored
      ensures Valid() && restored == old(restored)
      ensures versions == old(versions)[path := old(versions)[path] + [ApplyAll(Last(old(versions)[path]), statements)]]
      ensures path !in restored ==> Coherent(versions[path])
      ensures old(Coherent(versions[path])) ==>
                (Coherent(versions[path]) <==> Agrees(old(versions)[path], Last(versions[path])))
    {
      var vs := versions[path];
      var db := ApplyAll(Last(vs), statements);
      NextVersion(versions, restored, path, statements);
      hide Valid, Coherent, Agrees, Follows, ApplyAll;
      Append(path, db);
      if path !in restored { LinesAreCoherent(path); }
    }

    /** Enter the block: take the snapshot and decide whether the cache can be used at all. */
    method Begin(id: nat, path: string, inTransaction: bool, snapshot: Db, query: Query)
      requires Valid() && id !in readers
      requires !inTransaction && path != "" ==> path in versions && versions[path] != [] && snapshot == Last(versions[path])
      modifies this`readers
      ensures Valid()
      ensures id in readers && readers == old(readers)[id := readers[id]]
      ensures readers[id] == Reader(path, snapshot, query, readers[id].phase)
      ensures readers[id].phase ==
              if inTransaction || snapshot.generation.None? || path == ""
                 || |path| + |query.question| + scopeLength(query.scope) > 8192
              then Bypassing else Waiting
    {
      var phase := Waiting;
      if inTransaction || snapshot.generation.None? {
        phase := Bypassing;
      } else if path == "" || |path| + |query.question| + scopeLength(query.scope) > MAX_KEY_CHARS {
        phase := Bypassing;
      }
      var r := Reader(path, snapshot, query, phase);
      ClaimKept(readers, building, id, r, readers[id := r]);
      readers := readers[id := r];
    }

    /**
     * One look under the lock.  While another reader builds the key this reader waits.  Otherwise it gets
     * an answer, which on a coherent file is what it would have computed on its own snapshot, or it must compute,
     * holding a claim unless sixteen keys are being built already.
     */
    method Lookup(id: nat) returns (waiting: bool)
      requires Valid() && id in readers && readers[id].phase.Waiting?
      modifies this`readers, this`order, this`building
      ensures Valid()
      ensures waiting <==> KeyOf(old(readers)[id]) in old(building)
      ensures waiting ==> readers == old(readers) && order == old(order) && building == old(building)
      ensures waiting ==> exists other :: other in readers && other != id && Claims(readers[other], KeyOf(readers[id]))
      ensures id in readers && readers == old(readers)[id := readers[id]]
      ensures readers[id] == old(readers)[id].(phase := readers[id].phase)
      ensures !waiting ==> Outcome(matcher, versions, results, old(readers)[id], readers[id].phase, old(order), order,
                                   old(building), building)
    {
      var r := readers[id];
      assert ReaderFits(scopeLength, versions, r);
      var key := KeyOf(r);
      waiting := key in building;
      if waiting {
        hide Lines, AllBacked, Small, ReadersFit, Recency;
        Claimant(readers, building, key);
      } else if key in results {
        Serve(id);
      } else {
        Compute(id);
      }
    }

    /** The answer under the reader's key is its own, if its file is coherent. */
    lemma AnswerIsOwn(id: nat, r: Reader)
      requires Valid() && id in readers && r == readers[id] && r.phase.Waiting? && Keyed(r) && KeyOf(r) in results
      ensures r.path in versions && Coherent(versions[r.path]) ==>
                results[KeyOf(r)] == Resolve(matcher, r.snapshot, r.query)
    {
      assert ReaderFits(scopeLength, versions, r);
      hide Resolve, Coherent, KeyedRows, Line, Small, ReadersFit, OneClaimant, Recency;
      if Coherent(versions[r.path]) { HitIsFresh(matcher, versions, results, r); }
    }

    /** What serving keeps of the readers, the claims and the recency order. */
    lemma ServeKeeps(id: nat, phase: Phase, more: map<nat, Reader>, touched: seq<CacheKey>)
      requires Valid() && id in readers && readers[id].phase.Waiting? && Keyed(readers[id])
      requires KeyOf(readers[id]) in results && !phase.Claiming? && touched == Touch(order, KeyOf(readers[id]))
      requires more == readers[id := readers[id].(phase := phase)]
      ensures ReadersFit(scopeLength, versions, more) && OneClaimant(more, building)
      ensures Recency(touched, results) && |touched| == |order|
    {
      hide Lines, AllBacked, Small, Claims, OneClaimant, ReadersFit, Recency, Touch;
      ReaderPut(scopeLength, versions, readers, id, phase, more);
      TouchHit(order, KeyOf(readers[id]), results, touched);
      ClaimKept(readers, building, id, readers[id].(phase := phase), more);
    }

    method Serve(id: nat)
      requires Valid() && id in readers && readers[id].phase.Waiting? && Keyed(readers[id])
      requires KeyOf(readers[id]) in results
      modifies this`readers, this`order
      ensures Valid()
      ensures id in readers && readers == old(readers)[id := old(readers)[id].(phase := readers[id].phase)]
      ensures readers[id].phase.Served?
      ensures Outcome(matcher, versions, results, old(readers)[id], readers[id].phase, old(order), order, building, building)
    {
      hide Resolve, Lines, AllBacked, Small, Claims, OneClaimant, ReadersFit, Recency, Touch, Coherent, Keyed;
      var r := readers[id];
      var answer := results[KeyOf(r)];
      AnswerIsOwn(id, r);
      var more, touched := readers[id := r.(phase := Served(answer))], Touch(order, KeyOf(r));
      ServeKeeps(id, Served(answer), more, touched);
      order := touched;
      readers := more;
    }

    method Compute(id: nat)
      requires Valid() && id in readers && readers[id].phase.Waiting? && Keyed(readers[id])
      requires KeyOf(readers[id]) !in results && KeyOf(readers[id]) !in building
      modifies this`readers, this`building
      ensures Valid()
      ensures id in readers && readers == old(readers)[id := old(readers)[id].(phase := readers[id].phase)]
      ensures Outcome(matcher, versions, results, old(readers)[id], readers[id].phase, order, order, old(building), building)
    {
      hide Resolve, Lines, AllBacked, Small, Claims, OneClaimant, ReadersFit, Recency, Touch;
      var r := readers[id];
      if |building| < MAX_BUILDING {
        var more := readers[id := r.(phase := Claiming)];
        ReaderPut(scopeLength, versions, readers, id, Claiming, more);
        NewClaim(readers, building, id, r.(phase := Claiming), more);
        building := building + {KeyOf(r)};
        readers := more;
      } else {
        var more := readers[id := r.(phase := Missing)];
        ReaderPut(scopeLength, versions, readers, id, Missing, more);
        ClaimKept(readers, building, id, r.(phase := Missing), more);
        readers := more;
      }
    }

    /** Puts an answer under its key and evicts the oldest entries beyond the bound. */
    method Store(key: CacheKey, ids: seq<nat>)
      requires Valid() && Backed(matcher, versions, key, ids) && |ids| <= MAX_DOCUMENTS
      requires |key.path| + |key.query.question| + scopeLength(key.query.scope) <= MAX_KEY_CHARS
      modifies this`results, this`order
      ensures Valid() && key in results && results[key] == ids
      ensures var touched := Touch(old(order), key);
              && order == (if |touched| > MAX_ENTRIES then touched[1..] else touched)
              && results == old(results)[key := ids] - (if |touched| > MAX_ENTRIES then {touched[0]} else {})
    {
      hide Lines, ReadersFit, OneClaimant, Touch, Backed;
      TouchKeeps(order, key, results, ids);
      results := results[key := ids];
      order := Touch(order, key);
      ghost var filled, touched := results, order;
      assert touched[|touched| - 1] == key by { TouchEnds(old(order), key); }
      while |order| > MAX_ENTRIES
        invariant Recency(order, results)
        invariant AllBacked(matcher, versions, results) && Small(scopeLength, results)
        invariant |order| <= MAX_ENTRIES + 1
        invariant |order| == MAX_ENTRIES + 1 ==> order == touched && results == filled
        invariant |order| <= MAX_ENTRIES ==>
                    order == (if |touched| > MAX_ENTRIES then touched[1..] else touched)
                    && results == filled - (if |touched| > MAX_ENTRIES then {touched[0]} else {})
        decreases |order|
      {
        EvictKeeps(order, results);
        results := results - {order[0]};
        order := order[1..];
      }
      assert order[|order| - 1] == key;
      assert key in order;
    }

    lemma TouchEnds(order: seq<CacheKey>, key: CacheKey)
      ensures Touch(order, key) != [] && Touch(order, key)[|Touch(order, key)| - 1] == key
    {
    }

    /** A reader that had to compute publishes its answer; without a claim this does nothing. */
    method Publish(id: nat) returns (ids: seq<nat>)
      requires Valid() && id in readers && (readers[id].phase.Claiming? || readers[id].phase.Missing?)
      modifies this`results, this`order
      ensures Valid()
      ensures ids == Resolve(matcher, readers[id].snapshot, readers[id].query)
      ensures readers[id].phase.Missing? ==> results == old(results) && order == old(order)
      ensures readers[id].phase.Claiming? ==>
                var key := KeyOf(readers[id]);
                var touched := Touch(old(order), key);
                && key in results && results[key] == ids
                && order == (if |touched| > 128 then touched[1..] else touched)
                && results == old(results)[key := ids] - (if |touched| > 128 then {touched[0]} else {})
    {
      var r := readers[id];
      assert ReaderFits(scopeLength, versions, r);
      hide Resolve, Lines, AllBacked, Small, ReadersFit, OneClaimant, Recency, Touch;
      ids := Resolve(matcher, r.snapshot, r.query);
      if r.phase.Claiming? {
        assert Backed(matcher, versions, KeyOf(r), ids);
        Store(KeyOf(r), ids);
      }
    }

    /** Every way out of the block: after an answer, after a publication, or through an exception. */
    method Leave(id: nat)
      requires Valid() && id in readers
      modifies this`readers, this`building
      ensures Valid()
      ensures readers == old(readers) - {id}
      ensures building == old(building) - (if old(readers)[id].phase.Claiming? then {KeyOf(old(readers)[id])} else {})
      ensures old(readers)[id].phase.Claiming? ==>
                forall other :: other in readers ==> !Claims(readers[other], KeyOf(old(readers)[id]))
    {
      var r := readers[id];
      assert ReaderFits(scopeLength, versions, r);
      ClaimReleased(readers, building, id);
      readers := readers - {id};
      if r.phase.Claiming? {
        building := building - {KeyOf(r)};
      }
    }

    /** The cache never holds more than its bound. */
    lemma Bounded()
      requires Valid()
      ensures |results| <= 128
    {
      OrderCounts(order, results);
    }
  }

  /** The question is short enough to be cached, and both documents answer it. */
  ghost predicate BothAnswer(m: Matcher, scopeLength: Scope -> nat, question: string, source: Src, one: Doc, two: Doc) {
    && one.id != two.id && one.source == two.source == source.id
    && m.candidate(question, ViewDoc(one)) && m.score(question, ViewDoc(one), ViewSrc(source)).Some?
    && m.candidate(question, ViewDoc(two)) && m.score(question, ViewDoc(two), ViewSrc(source)).Some?
    && 1 + |question| + scopeLength(FirstOnly(question).scope) <= MAX_KEY_CHARS
  }

  /** A reader of a new file finds nothing cached and claims the key. */
  method FirstClaim(m: Matcher, scopeLength: Scope -> nat, start: Db, insert: Statement, q: Query) returns (cache: Cache)
    requires UniqueIds(start.docs) && ApplyAll(start, [insert]).generation.Some?
    requires 1 + |q.question| + scopeLength(q.scope) <= MAX_KEY_CHARS
    ensures fresh(cache) && cache.Valid() && cache.matcher == m && cache.scopeLength == scopeLength
    ensures cache.readers == map[0 := Reader("f", ApplyAll(start, [insert]), q, Claiming)]
    ensures cache.building == {KeyOf(cache.readers[0])}
  {
    hide Cache.Valid, Resolve, Coherent, Agrees, ApplyAll, Touch, UniqueIds;
    cache := new Cache(m, scopeLength);
    cache.Publication("f", start);
    cache.Commit("f", [insert]);
    var snapshot := Last(cache.versions["f"]);
    cache.Begin(0, "f", false, snapshot, q);
    var waiting := cache.Lookup(0);
    assert !waiting && cache.readers[0].phase.Claiming?;
  }

  /** A reader of a new file computes and caches its answer. */
  method FirstReader(m: Matcher, scopeLength: Scope -> nat, start: Db, insert: Statement, q: Query)
    returns (cache: Cache, ids: seq<nat>, ghost key: CacheKey)
    requires UniqueIds(start.docs) && ApplyAll(start, [insert]).generation.Some?
    requires 1 + |q.question| + scopeLength(q.scope) <= MAX_KEY_CHARS
    ensures fresh(cache) && cache.Valid() && cache.matcher == m && cache.scopeLength == scopeLength
    ensures cache.readers == map[] && cache.building == {}
    ensures key == CacheKey("f", ApplyAll(start, [insert]).generation.value, q)
    ensures key in cache.results && cache.results[key] == ids == Resolve(m, ApplyAll(start, [insert]), q)
  {
    hide Cache.Valid, Resolve, Coherent, Agrees, ApplyAll, Touch, UniqueIds;
    cache := FirstClaim(m, scopeLength, start, insert, q);
    key := KeyOf(cache.readers[0]);
    ids := cache.Publish(0);
    cache.Leave(0);
  }

  /** A copy takes the file's place, and a reader of a generation known to the cache gets the cached answer. */
  method SecondReader(cache: Cache, copy: Db, insert: Statement, q: Query, ghost key: CacheKey, ghost ids: seq<nat>)
    requires cache.Valid() && cache.readers == map[] && cache.building == {}
    requires UniqueIds(copy.docs) && ApplyAll(copy, [insert]).generation.Some?
    requires key == CacheKey("f", ApplyAll(copy, [insert]).generation.value, q)
    requires key in cache.results && cache.results[key] == ids
    requires 1 + |q.question| + cache.scopeLength(q.scope) <= MAX_KEY_CHARS
    modifies cache
    ensures cache.Valid() && 1 in cache.readers
    ensures cache.readers[1] == Reader("f", ApplyAll(copy, [insert]), q, Served(ids))
  {
    hide Cache.Valid, Resolve, Coherent, Agrees, ApplyAll, Touch, UniqueIds;
    cache.Publication("f", copy);
    cache.Commit("f", [insert]);
    var snapshot := Last(cache.versions["f"]);
    cache.Begin(1, "f", false, snapshot, q);
    assert KeyOf(cache.readers[1]) == key;
    var waiting := cache.Lookup(1);
  }

  /**
   * A run with a restored copy: a first reader's answer is cached, an older copy of the file takes the file's
   * place and another document is added to it, and a second reader of the same generation is served the first
   * reader's answer, which is not its own.
   */
  method StaleHit(m: Matcher, scopeLength: Scope -> nat, question: string, g: Generation, source: Src, one: Doc, two: Doc)
    returns (cache: Cache, ids: seq<nat>)
    requires BothAnswer(m, scopeLength, question, source, one, two)
    ensures cache.Valid() && ids == [one.id] && 1 in cache.readers && cache.readers[1].phase == Served(ids)
    ensures Resolve(m, cache.readers[1].snapshot, cache.readers[1].query) == [two.id]
  {
    var copy, q := Db([], [source], Some(g)), FirstOnly(question);
    RestoredCopyMayDiverge(m, question, g, source, one, two);
    hide Cache.Valid, Resolve, ApplyAll;
    ghost var key;
    cache, ids, key := FirstReader(m, scopeLength, copy, InsertDoc(one), q);
    SecondReader(cache, copy, InsertDoc(two), q, key, ids);
  }
}
