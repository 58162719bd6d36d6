# Formal model of AXPIndexerNG

AXPIndexerNG indexes documents on a desktop machine and retrieves passages from them. This project models the parts of
it whose correctness is not visible from one function at a time, and proves what they are for:

- **Tracing** (`Intervals`, `Tracing`): a span remembers one number instead of the intervals of its closed children.
  For every interleaving of opens and closes under a clock that never goes back, that number is exact; a whole run on
  one thread reports own times that add up, over every subtree, to its inclusive time.
- **Chunking** (`Text`, `ChunkUnits`, `Chunker`): every visible character of every text is in some chunk, windows move
  forward without gaps and overlap as much as they may, and two greedy runs are compared to show that ends never decrease.
- **Indexing** (`Embedding`, `Accounting`, `Catalog`, `Writer`, `Scan`): bisection of failing batches, documents
  replaced atomically over three tables kept in step by triggers, exact counters for any behaviour of the backend,
  deletion only after a complete scan, what a complete scan leaves of every file down to the vectors of its chunks, and a
  rescan that changes nothing.
- **Identity cache** (`IdentityResolver`, `IdentityCache`): any interleaving of commits, lookups, publications, evictions
  and aborted builders; a hit equals a fresh resolution on the reader's own snapshot exactly as long as the versions of a
  generation join to the same rows.
- **Reader pool** (`ReaderPool`): exclusive lending and a bounded number of connections over any run; after closing
  nothing is counted exactly when no slot was lost.
- **Sources** (`CaseFolding`, `Paths`, `SourcePaths`, `Sources`): path keys down to characters, recovered from their
  components, so that any file lies inside at most one source.
- **Evidence packing** (`Joining`, `Context`, `Evidence`): distinct seeds, fair shares, fallback variants and the search
  over word prefixes, for any token counter.
- **Smaller parts**: hybrid search (`Hybrid`), deterministic sampling (`Sampling`), LIKE escaping (`PathKeys`), the
  recovery policy of the tray (`Watchdog`), the Skill format (`Skills`).

A part that changes state in place is a class or a method with loops, proved against specification functions; runs of
concurrent threads are sequences of atomic steps, one method each, and `Valid()` is what every step keeps. Clock readings,
backend answers, failing statements, text matching, case folding and the token counter are parameters, so that each result
holds for all of them. `Wrappers` holds the two failure types, `Basics` a few helpers on numbers and sequences, `Sorting`
and `Ranking` what the parts that sort share.

Where the code and what one would expect of it differ, the code is modelled and the difference is stated:

- a reused reader whose search is cancelled before the block loses its slot for good (`ReaderPool.Pool.CancelReuse`,
  `ReaderPool.TwoCancellations`; `ReaderPool.Pool.Drained` says exactly when nothing stays counted);
- a file whose `stat()` raises is handled with the answers for the file before it, whose row an office file takes over
  (`Scan.RowTakenOver`; exactly when, `Scan.TakeoverIff`);
- a backend failure inside the scan loop makes files completed twice (`Scan.CompletedTwice`; exactly when,
  `Scan.ExcessGrowsIff` for a turn and `Scan.ScanSource` for a scan);
- a copy of a database restored under a known token can defeat the generation (`IdentityCache.StaleHit`; exactly when,
  `IdentityCache.CoherentIffShareable` and `IdentityCache.Cache.Publication`);
- with nested sources the verdict on a new path depends on the row order (`Sources.AgreeIffNotNested`,
  `Sources.OrderIrrelevantIff`, `Sources.NestedVerdictDependsOnOrder`), and the insert can then violate the unique key
  (`Sources.AddedTwice`, `Sources.NestedKeyTaken`; exactly when it can, `Sources.NotUniqueIffNested`);
- a share root resolved by Windows gets another key than the same root given by name (`Sources.ShareRootTwice`; exactly
  when, `SourcePaths.NativeKeyNormal`);
- a path pattern matches sibling names (`PathKeys.SiblingsMatch`; exactly when, `PathKeys.MatchedLiesIn`);
- a chunk may bring no new unit (`Chunker.ChunkMayAddNothing`; exactly when, `Chunker.NextEndsLaterIff`);
- the text of a block is split back wrongly when a chunk holds an empty line (`Context.EmptyLineShiftsText`; exactly
  when, `Context.RowsRecovered`);
- a share of 0 is raised to 1 (`Context.EmptyBudgetAdmits`; exactly when the window still holds, `Context.WindowFits`);
- a span that is open at a snapshot and was opened after `finish` shows a negative time (`Tracing.LateSpan`; exactly
  when the table is conserved, `Tracing.Trace.Snapshot`): no caller in the repository opens spans that late, the
  interface allows it;
- some accepted Skills cannot be read back after printing (`Skills.CaseVariantsCollide`, `Skills.DriveBehindSeparator`;
  exactly when, `Skills.RoundTrip`).

`dafny verify dfyconfig.toml` checks the whole project.

## Model

| member | source | states |
|---|---|---|
| Intervals.IntervalUnion | shared/axp_core/tracing.py:23-30 | the sorted sweep returns the number of ticks that some interval covers, for any list of intervals, overlapping or empty ones included |
| Intervals.SweepSkips | shared/axp_core/tracing.py:27-29 | the part of the next interval that the sweep does not count is exactly the part earlier intervals already cover |
| Intervals.SweepStep | shared/axp_core/tracing.py:28 | one step adds exactly the newly covered ticks |
| Intervals.CoverOfPermutation | shared/axp_core/tracing.py:27 | sorting does not change what is measured |
| Tracing.RunningCover | shared/axp_core/tracing.py:97 | the active children of a handle, cut off now, cover one stretch from the earliest start |
| Tracing.FrontierWithout | shared/axp_core/tracing.py:93 | what happens to the earliest active child when one child leaves |
| Tracing.CoverageSplit | shared/axp_core/tracing.py:85-94 | closed ticks before the frontier and the running stretch are disjoint and together all child ticks |
| Tracing.SettledStep | shared/axp_core/tracing.py:92-94 | what `child_closed` adds, `max(0, min(end, frontier) - start)`, is what the settled ticks gain when a child that started at the frontier closes |
| Tracing.CloseSettlesParent | shared/axp_core/tracing.py:92-94 | over a whole active list: what `child_closed` adds is what the parent's settled ticks gain |
| Tracing.OpenKeepsHandle | shared/axp_core/tracing.py:144-147 | opening any span keeps every handle's number exact |
| Tracing.CloseKeepsHandle | shared/axp_core/tracing.py:159-167 | closing a span keeps the number of every handle but its parent exact |
| Tracing.LaterKeepsHandle | shared/axp_core/tracing.py:84-94 | the passing of time keeps the numbers exact |
| Tracing.Trace.constructor | shared/axp_core/tracing.py:34-42 | a new trace is valid, empty and balanced |
| Tracing.Trace.CoverageIsExact | shared/axp_core/tracing.py:85-98 | in every reachable state `covered` plus the union of the running children is the size of the union of all child intervals, concurrent ones included |
| Tracing.Trace.OwnTicksFormula | shared/axp_core/tracing.py:96-98 | the ticks a handle spends in no child, as a formula over its one number |
| Tracing.Trace.Own | shared/axp_core/tracing.py:96-98 | `own` equals that count at any reading not before the last event, and the `max(0, ...)` never clips there; at an earlier reading it is the clipped formula |
| Tracing.Trace.CoveredBound | shared/axp_core/tracing.py:85-94 | what `covered` counts fits between the start of the handle and its frontier |
| Tracing.Trace.Record | shared/axp_core/tracing.py:144-147 | the recorded half of opening: new state in full, invariant kept |
| Tracing.Trace.Open | shared/axp_core/tracing.py:120-152 | opening a span under any parent: when it is dropped (128 active, or no row left), which row it takes, and that everything else stays |
| Tracing.Trace.Retire | shared/axp_core/tracing.py:159-167 | closing a handle, spelled out: its row gains the duration and the own ticks, its longest time becomes the larger of the two, its calls and every other row stay; the handle leaves the active list and the parent is told, with the invariant kept |
| Tracing.Trace.Close | shared/axp_core/tracing.py:153-168 | closing any active span, in any order: exactly that happens to the rows, and to nothing else |
| Tracing.Trace.Enter | shared/axp_core/tracing.py:120-152 | on one thread: the handle is new, its parent is the innermost open span, which row it takes and when it is dropped; that row has one call more or is a new one without times, no other row changes, and the time balance of all rows is kept, dropped spans included |
| Tracing.Trace.Leave | shared/axp_core/tracing.py:153-168 | on one thread: the row gains the duration, the exact own time and the longest time, spelled out; the span around it is covered for the whole duration, and the balance is kept |
| Tracing.EnteredKeepsBalance | shared/axp_core/tracing.py:134-147 | a new call, on a new or an old row, keeps every row in balance |
| Tracing.ChargedKeepsBalance | shared/axp_core/tracing.py:160-167 | charging a finished call keeps every row in balance |
| Tracing.SubtreeConservation | shared/axp_core/tracing.py:160-163 | in a conserved table the own times of any subtree sum to the inclusive time of its root |
| Tracing.Trace.Finish | shared/axp_core/tracing.py:57-59 | finishing changes the end time only |
| Tracing.Trace.RowsAt | shared/axp_core/tracing.py:61-73 | the rows of a snapshot at any clock reading: finished calls plus what every active handle has, inclusive, own and longest times alike |
| Tracing.Trace.Snapshot | shared/axp_core/tracing.py:61-78 | at any state and reading each row shows its finished calls plus what its running ones have, exactly while no event is later; on one thread the rows are conserved if and only if the reading is timely for every open call |
| Tracing.SnapshotConserved | shared/axp_core/tracing.py:66-69 | a snapshot of a balanced stack is conserved exactly when none of the own times it shows is off |
| Tracing.Trace.StackedOff | shared/axp_core/tracing.py:66-69 | a shown own time of a stack is right exactly when the reading is timely for that call |
| Tracing.StackRowsIncrease | shared/axp_core/tracing.py:127-140 | open calls of one thread have rows of their own, each after the one around it |
| Tracing.CallSums | shared/axp_core/tracing.py:120-168 | one call with everything under it: the rows beside it and around it gain its duration in inclusive time, rows elsewhere gain nothing, and it is counted once |
| Tracing.PerformCall | shared/axp_core/tracing.py:120-168 | a tree of calls inside any stack of open spans: the rows under the innermost one gain the durations of its recorded spans, and unless something is dropped every call is counted |
| Tracing.Run | shared/axp_core/tracing.py:120-168 | a whole traced run on one thread, from a new trace and for any tree of calls: inclusive times of the rows without a parent sum to the durations of the outermost calls, every call is counted unless something was dropped, and the reported times are conserved row by row and over every subtree |
| Tracing.LateSpan | shared/axp_core/tracing.py:57-69 | a span opened after `finish` and still open shows a negative inclusive time, and the table is not conserved |
| Text.WordsTile | daemon/axp_daemon/chunker.py:14 | the words of a text are in order and leave out only white space |
| Text.WordsAreWords | daemon/axp_daemon/chunker.py:14 | each word is a longest stretch without white space |
| Text.WordCountOfSlice | daemon/axp_daemon/chunker.py:52-56 | a slice between two words holds exactly the words between them |
| ChunkUnits.SentencesTile | daemon/axp_daemon/chunker.py:15-31 | the trimmed sentences are in order and leave out only white space |
| ChunkUnits.ParagraphEndIs | daemon/axp_daemon/chunker.py:38 | a paragraph goes on to the first line break that an empty line or nothing follows |
| ChunkUnits.SentencesEndWell | daemon/axp_daemon/chunker.py:15-31 | a sentence ends behind the first full stop, question or exclamation mark that a space or the end follows, or with the paragraph |
| ChunkUnits.ParagraphIsHeadingIff | daemon/axp_daemon/chunker.py:18-56 | a paragraph is one heading unit exactly when it has at most 12 words and ends with a colon, starts with a mark or is in capitals; otherwise it is plain sentences |
| ChunkUnits.LabelIs | daemon/axp_daemon/chunker.py:43-46 | the label of a heading is the heading without marks and spaces in front and colons behind |
| ChunkUnits.HeadingsCarry | daemon/axp_daemon/chunker.py:36-56 | every unit bears the label of the last heading before it |
| ChunkUnits.UnitsAreCutWell | daemon/axp_daemon/chunker.py:36-56 | every unit of a text is a heading paragraph, a sentence or a group of its words cut as the limits say |
| ChunkUnits.StripOfSlice | daemon/axp_daemon/chunker.py:42 | `start + len(group) - len(group.lstrip())` is where the stripped text starts |
| ChunkUnits.FindSentences | daemon/axp_daemon/chunker.py:24-31 | the sentence loop yields the scanner's sentences with their places |
| ChunkUnits.PiecesTile | daemon/axp_daemon/chunker.py:51-56 | grouping words of an overlong sentence loses none |
| ChunkUnits.PiecesCount | daemon/axp_daemon/chunker.py:52-56 | each group cut out of a sentence holds exactly `max_words` words again, the last one what remains |
| ChunkUnits.AppendSentence | daemon/axp_daemon/chunker.py:47-56 | one sentence is appended whole or in word groups |
| ChunkUnits.AppendParagraph | daemon/axp_daemon/chunker.py:43-56 | one paragraph: a heading unit and the new heading, or its sentences |
| ChunkUnits.BuildUnits | daemon/axp_daemon/chunker.py:36-56 | the paragraph loop builds the units of the text |
| ChunkUnits.UnitsAreTiles | daemon/axp_daemon/chunker.py:36-56 | the units of any text are slices of bounded size, in order, that leave out only white space |
| Chunker.TakeWindow | daemon/axp_daemon/chunker.py:60-79 | the window loop ends where the greedy run ends, with the first heading in force |
| Chunker.EndIsFirstStop | daemon/axp_daemon/chunker.py:60-79 | a window ends at the first place where the target is reached, the next unit does not fit, a heading follows enough words, or the text ends |
| Chunker.HeadingIsFirst | daemon/axp_daemon/chunker.py:60-82 | a chunk bears the first heading in force among its units, if any |
| Chunker.StepBack | daemon/axp_daemon/chunker.py:86-96 | the overlap loop gives the next start, for which the overlap is maximal |
| Chunker.AppendChunk | daemon/axp_daemon/chunker.py:59-96 | one turn of the loop appends the chunk at `i` and moves forward |
| Chunker.ChunkText | daemon/axp_daemon/chunker.py:34-97 | the whole method produces the chunks of the specification, and terminates |
| Chunker.WindowLoad | daemon/axp_daemon/chunker.py:64-78 | a window exceeds `max_words` only if its first unit alone does |
| Chunker.NextOverlap | daemon/axp_daemon/chunker.py:86-96 | the overlap holds at most `overlap_words` words or is a single unit |
| Chunker.NextIsMaximal | daemon/axp_daemon/chunker.py:86-96 | the overlap cannot be larger: it has reached `overlap_words`, or one unit more would exceed them, or the window has no more to give; a window of two units or more always overlaps |
| Chunker.RunsOrdered | daemon/axp_daemon/chunker.py:64-78 | of two greedy runs standing at one unit, the one with fewer words stops no earlier |
| Chunker.EndsNeverDecrease | daemon/axp_daemon/chunker.py:59-96 | a window that starts inside another does not end before it |
| Chunker.WindowsMarch | daemon/axp_daemon/chunker.py:59-96 | starts strictly increase, ends never decrease, no gap, the last window ends at the last unit |
| Chunker.NextEndsLaterIff | daemon/axp_daemon/chunker.py:64-96 | consecutive ends strictly increase exactly when there is no overlap or the next unit still fits after it |
| Chunker.ChunkMayAddNothing | daemon/axp_daemon/chunker.py:64-96 | a text whose second chunk only repeats the last unit of the first: both end at the same character |
| Chunker.ChunksAreSound | daemon/axp_daemon/chunker.py:34-97 | for every text and all limits: chunks are the slices they say, in order, and every visible character is in one |
| Chunker.ChunksAreBounded | daemon/axp_daemon/chunker.py:64-78 | no chunk of any text holds more words than the larger of `max_words` and 12 |
| Chunker.WordsOfWindow | daemon/axp_daemon/chunker.py:64-82 | the text cut out for a window holds at most the words of its units |
| Chunker.ChunksOverlap | daemon/axp_daemon/chunker.py:86-96 | consecutive windows of a text share at most `overlap_words` words or one unit, and as much as that allows |
| Embedding.EmbedGroup | daemon/axp_daemon/indexer.py:98-131 | the recursive method produces the bisection outcome: embedded pairs, failures recorded, calls made, chunk count |
| Embedding.EmbedHalves | daemon/axp_daemon/indexer.py:117-120 | the split: the second half is tried only if the backend survived the first |
| Embedding.NothingLost | daemon/axp_daemon/indexer.py:98-131 | for any backend answers, each document is embedded or recorded as failed, once, in order, and the chunks counted are the vectors handed out |
| Embedding.VectorsAreOwn | daemon/axp_daemon/indexer.py:39-43 | whatever the backend answers and however the batch is split, each chunk that comes back has a vector the backend returned for that chunk's own text under its document's name and its heading |
| Embedding.GivenUpAlone | daemon/axp_daemon/indexer.py:98-131 | a document is given up only after the backend refused it on its own |
| Embedding.FailureIsLast | daemon/axp_daemon/indexer.py:98-131 | a group given up by a failure of the backend made no call after that one |
| Embedding.NeverFails | daemon/axp_daemon/indexer.py:114-115 | a group is given up only if some backend call failed as a backend |
| Embedding.CallsLinear | daemon/axp_daemon/indexer.py:98-123 | at most `2m - 1` calls for `m` documents, whatever the answers |
| Embedding.BadIsolated | daemon/axp_daemon/indexer.py:98-131 | against a backend that rejects exactly batches with a bad text: the good documents with their own vectors, the bad ones once each, within `1 + 2 k ceil(log2 n)` calls |
| Embedding.GoodAndBad | daemon/axp_daemon/indexer.py:98-131 | the bad documents are those with a rejected text, the good ones those without |
| Embedding.CeilLog2Is | daemon/axp_daemon/indexer.py:118 | the logarithm in that bound is the least power of two that reaches `n` |
| Embedding.FailAllMeans | daemon/axp_daemon/indexer.py:63-72 | recording failures touches the failure accounts only |
| Accounting.CountKeeps | daemon/axp_daemon/indexer.py:217-235 | a balanced change keeps breakdown, totals and open files in balance |
| Accounting.TotalsBalanced | daemon/axp_daemon/indexer.py:63-72 | balanced rows that add up to the totals make the totals balanced: seen = content + metadata + ignored + failed |
| Accounting.CountOpens | daemon/axp_daemon/indexer.py:217-235 | a newly seen and classified file is one more open file |
| Accounting.CountCompletes | daemon/axp_daemon/indexer.py:223-228 | an ignored file is seen and completed at once |
| Accounting.FailKeeps | daemon/axp_daemon/indexer.py:63-72 | a failure completes one open file and keeps the balance, per extension and in total |
| Catalog.DropChunksSound | shared/axp_core/schema.py:61-62 | deleting a document's chunks, with the delete triggers, keeps chunks, full-text rows and vectors on the same ids |
| Catalog.DropDocumentSound | daemon/axp_daemon/indexer.py:316-317 | deleting a document, with cascade and triggers, keeps the catalog sound |
| Catalog.DropSourceSound | shared/axp_core/sources.py:166-170 | removing a source removes its documents and all under them, and nothing else |
| Catalog.WrittenStep | daemon/axp_daemon/indexer.py:169-182 | one turn of the chunk loop writes chunk `n` with its own full-text row and vector and leaves other documents alone |
| Catalog.WrittenSound | daemon/axp_daemon/indexer.py:141-184 | a completely written document leaves the catalog sound, its chunks numbered from 0 |
| Catalog.WrittenHasRoom | daemon/axp_daemon/indexer.py:169-177 | the next chunk number of a partly written document is free, so the insertion cannot clash |
| Writer.Connection.WriteRow | daemon/axp_daemon/indexer.py:144-168 | replacing or inserting the document row, with every statement able to fail; it succeeds when none does |
| Writer.Connection.WriteChunk | daemon/axp_daemon/indexer.py:170-182 | one chunk with its three rows, or a failure part way; it succeeds when no statement fails and the number is free |
| Writer.Connection.TryWrite | daemon/axp_daemon/indexer.py:143-182 | the statements between savepoint and release |
| Writer.Connection.WriteDocument | daemon/axp_daemon/indexer.py:141-188 | a document is written completely, counted as new or modified, or is as it was before, with the failure recorded; without a failing statement it is written |
| Writer.Connection.WriteAll | daemon/axp_daemon/indexer.py:141-188 | all embedded documents: each is indexed with exactly its own chunks, full-text rows and vectors, or recorded as failed with everything under its key as it was; there are as many of these as recorded failures; catalog sound, accounts balanced |
| Writer.Connection.Flush | daemon/axp_daemon/indexer.py:134-193 | `_flush` fails exactly when bisection meets a failing backend, before anything is written, and how many pending files were completed all the same; otherwise every pending file is completed, indexed with its own chunks and vectors the backend returned for them, or recorded as failed and left as it was; documents and chunks under other keys untouched |
| Writer.WrittenEvolves | daemon/axp_daemon/indexer.py:141-184 | writing one document changes only what belongs to its path key, chunks, full-text rows and vectors included |
| Writer.HoldsKept | daemon/axp_daemon/indexer.py:141-184 | an indexed document whose key is left alone stays as it is, chunks, full-text rows and vectors included |
| Writer.EachWrittenStep | daemon/axp_daemon/indexer.py:141-188 | one more document, written or not, leaves those before it as they were left and does not touch those after it |
| Writer.FlushedEach | daemon/axp_daemon/indexer.py:134-188 | the documents that bisection gave up are as they were |
| Embedding.ReliableEmbedsAll | daemon/axp_daemon/indexer.py:98-131 | a backend that always answers loses no document |
| Scan.PreserveFailed | daemon/axp_daemon/indexer.py:75-95 | a failed office file stays findable as exactly the metadata row, without chunks, over the row the handler holds or as a new one; everything under other keys is untouched; it fails only if a statement does or the key is taken |
| Scan.PreservedIs | daemon/axp_daemon/indexer.py:75-95 | field by field what the row of a failed file is: its key and digest as before, the file's path, names and suffix, no chunks; it bears the failed file's path also when it is the row of another file |
| Scan.RowOnly | daemon/axp_daemon/indexer.py:79-94 | a row left without chunks, old or new, keeps the catalog sound |
| Scan.Prepare | daemon/axp_daemon/indexer.py:238-280 | after `stat()`: unchanged, touched or read again; chunks, full-text rows and vectors stay in every case, a touched row changes in source, path, size and time only, and exactly the prepared document when the file has to be indexed and can be read |
| Scan.FoundDecides | daemon/axp_daemon/indexer.py:240-262 | whether a file is unchanged, and whether its bytes are indexed already, is decided by the row with its key |
| Scan.TouchSound | daemon/axp_daemon/indexer.py:253-262 | touching a row keeps the catalog sound and all text, and makes the row follow the file |
| Scan.Enqueue | daemon/axp_daemon/indexer.py:280-284 | queueing a prepared file: pending files, waiting chunks, backend calls and excess afterwards as one function of those before and the backend's answers, so exactly when a flush is tried, when it fails and what that leaves; no failure when nothing stands in the way |
| Scan.WriteBatch | daemon/axp_daemon/indexer.py:282-295 | the flush in the loop with its handler: the batch is written exactly when its bisection survives, and otherwise the excess grows by the files given up and this one |
| Scan.ExcessGrowsIff | daemon/axp_daemon/indexer.py:279-295 | a turn makes files completed twice exactly when its file has to be indexed, it fills the batch, and the backend fails in the flush |
| Scan.ProcessUnreachable | daemon/axp_daemon/indexer.py:285-295 | a file whose `stat()` raises: what the handler does with what `stat` and `old` hold from an earlier file, and, unless a statement fails, exactly when the scan goes on |
| Scan.TakeoverIff | daemon/axp_daemon/indexer.py:236-295 | a row of another key comes to bear the file's path exactly when the file is an office file and the answers kept from an earlier file hold a row with another key; that row has no text any more |
| Scan.RowTakenOver | daemon/axp_daemon/indexer.py:209-320 | a run over two files, the first unchanged, the second an office file that cannot be reached: the scan is complete, and the row of the first bears the path of the second and no text |
| Scan.RecordBroken | daemon/axp_daemon/indexer.py:285-295 | the handler of a file that could not be read or queued: exactly the row it keeps, and one file counted as failed instead of content or metadata, in the totals and with its extension |
| Scan.ProcessFile | daemon/axp_daemon/indexer.py:236-295 | one file, whatever happens to it or to the backend: catalog sound, accounts exact, the batch afterwards exact, text kept when only the row is out of date, what is left of a file that cannot be read, rows of other files kept except the one a failing `stat()` takes over; exactly when the scan goes on unless a statement fails |
| Scan.TakeTurn | daemon/axp_daemon/indexer.py:209-295 | one turn of the loop keeps the scan invariant, for any backend; the batch and the excess afterwards are exact, what `stat` and `old` hold next, and what the turn leaves of a file whose row alone is out of date or that cannot be read |
| Scan.StateAfterTurn | daemon/axp_daemon/indexer.py:209-295 | the invariant of the scan is preserved: seen = content + metadata + ignored + failed in every row, and completed + pending = seen + the files completed twice |
| Scan.HeldIsIndexed | daemon/axp_daemon/indexer.py:141-280 | what was prepared from a file and written is the file: its row field by field, its chunks by number with their full-text rows, a vector for each one's own text |
| Scan.DoneKept | daemon/axp_daemon/indexer.py:209-320 | what a turn has done to a file stays done while others are handled |
| Scan.DoneAfterFlush | daemon/axp_daemon/indexer.py:209-320 | the last flush does what was still waiting |
| Scan.OneMoreCounted | daemon/axp_daemon/indexer.py:217-235 | one more file is counted once more with its extension, as what it is |
| Scan.Reconcile | daemon/axp_daemon/indexer.py:313-320 | deletes exactly the source's documents whose keys were not seen, and spares the chunks of all others |
| Scan.AfterReconcile | daemon/axp_daemon/indexer.py:313-320 | after it every document of the source has a seen key, and settled files stay settled |
| Scan.FinishScan | daemon/axp_daemon/indexer.py:296-320 | last flush, then deletion only if nothing was missed; it ends the scan with nothing undone exactly when the backend fails in that flush |
| Scan.ScanSource | daemon/axp_daemon/indexer.py:196-320 | whole scans, for any backend and any failing statements: catalog sound, totals balanced and completed = seen + excess, where the excess is 0 exactly when no backend call failed as a backend; complete exactly when the root is available, the enumeration complete, and the scan neither stopped, disabled nor given up; deletion only then. A complete scan has counted every file with its extension as what it is, up to the failed ones; without failures each file, if no two share a key, is left alone when it was unchanged, has its row refreshed when its bytes were indexed already, and is otherwise stored under its row, field by field, with its own chunks, full-text rows, and vectors the backend returned for their texts. Readable files, a reliable backend and no failing statement mean no failure |
| Scan.CompletedTwice | daemon/axp_daemon/indexer.py:209-320 | a run over one new file: the backend fails in the loop and answers at the end, and the one file seen is completed twice |
| Scan.ScanTwice | daemon/axp_daemon/indexer.py:196-335 | two scans of the same files: if the first leaves the catalog up to date, the second is complete, changes no row and reports every file unchanged, whatever its backend does; a complete first scan without failures does so unless two files share a key |
| Scan.UpToDateAgrees | daemon/axp_daemon/indexer.py:239-246 | no catalog is up to date with two files that share a key and differ in size, time or mode |
| IdentityResolver.UpdateTracked | shared/axp_core/identity_cache.py:25-36 | the document update trigger fires exactly when a column that resolution reads changes |
| IdentityResolver.SourceUpdateTracked | shared/axp_core/identity_cache.py:25-36 | the same for sources |
| IdentityResolver.ApplyAdvances | shared/axp_core/identity_cache.py:28-36 | any statement, cascades included: the revision does not fall, and if it stays the same nothing that resolution reads has changed |
| IdentityResolver.TransactionAdvances | shared/axp_core/identity_cache.py:20-36 | the same for whole transactions |
| IdentityResolver.DeletionsCounted | shared/axp_core/identity_cache.py:28-36 | a deletion takes away exactly the rows with the id, a source's documents with it, and raises the revision by their number |
| IdentityResolver.ResolveReadsView | client/axp_client/rag/spiral.py:110-167 | resolution depends on nothing but the columns the triggers watch |
| IdentityResolver.ResolveIs | client/axp_client/rag/spiral.py:110-167 | the answer, without the functions that compute it: the matching rows of the join, each once and in the order of their keys, cut to the limit and to 48; scope conditions field by field |
| IdentityResolver.RowsAreTheJoin | client/axp_client/rag/spiral.py:110-167 | the rows it selects from are the documents joined with their sources |
| IdentityResolver.SameRowsSameAnswer | client/axp_client/rag/spiral.py:141-167 | resolution depends only on the set of joined rows |
| IdentityResolver.AnswerAlikeIffSameRows | client/axp_client/rag/spiral.py:110-167 | two states resolve alike for every matcher and query exactly when they join to the same rows |
| IdentityResolver.TransactionKeepsUnique | shared/axp_core/identity_cache.py:20-36 | transactions keep the document ids unique |
| IdentityResolver.RestoredCopyMayDiverge | shared/axp_core/identity_cache.py:22-36 | two documents that both answer a question, added to two copies of one state: the copies reach one generation and resolve the question differently |
| IdentityCache.LineGrows | shared/axp_core/identity_cache.py:22-36 | every commit, migration or replacement keeps the versions of a file in line |
| IdentityCache.SameGenerationSameAnswer | shared/axp_core/identity_cache.py:61-64 | coherent versions with one generation answer every query alike |
| IdentityCache.LineIsCoherent | shared/axp_core/identity_cache.py:22-36 | on one line of commits the versions of a generation join to the same rows |
| IdentityCache.CoherentGrows | shared/axp_core/identity_cache.py:22-36 | a further version keeps versions coherent exactly when it agrees with those of its generation |
| IdentityCache.CoherentIffShareable | shared/axp_core/identity_cache.py:61-84 | answers may be shared by generation, for every matcher and query, exactly when the versions are coherent |
| IdentityCache.HitIsFresh | shared/axp_core/identity_cache.py:74-84 | a cached answer is what the reader would compute on its own snapshot, if the versions of its file are coherent |
| Basics.WithoutIs | shared/axp_core/identity_cache.py:84 | moving a key to the recent end loses and doubles nothing |
| IdentityCache.Cache.Publication | shared/axp_core/identity_cache.py:20-36 | a new file, a replacement, a migrated catalog or a restored copy under a known token: coherence is kept if and only if the copy agrees with the versions of its generation |
| IdentityCache.Cache.Commit | shared/axp_core/identity_cache.py:20-36 | any committed transaction keeps a file that was never restored coherent, and a restored one if and only if the outcome agrees with the versions of its generation |
| IdentityCache.Cache.Begin | shared/axp_core/identity_cache.py:48-68 | exactly when a reader bypasses the cache |
| IdentityCache.Cache.Lookup | shared/axp_core/identity_cache.py:69-87 | wait, hit, claim or compute without a claim: on a coherent file a hit equals a fresh resolve, one claimant a key, at most 16 keys in work, and who waits waits for another claimant |
| IdentityCache.Cache.Publish | shared/axp_core/identity_cache.py:91-98 | publishing stores the answer, evicts the oldest beyond 128, and does nothing without a claim |
| IdentityCache.Cache.Leave | shared/axp_core/identity_cache.py:100-105 | every way out releases the reader's key |
| IdentityCache.Cache.Bounded | shared/axp_core/identity_cache.py:16 | at most 128 results |
| IdentityCache.StaleHit | shared/axp_core/identity_cache.py:61-98 | a run with a restored copy in which a reader is served another version's answer |
| ReaderPool.Pool.Make | shared/axp_core/database.py:241-249 | a pool of positive size, or the error |
| ReaderPool.Pool.Acquire | shared/axp_core/database.py:251-269 | closed, wait, reuse or reserve: waiting exactly while held, opening and lost slots make up `size`; a reused connection is nobody else's and has no transaction open |
| ReaderPool.Pool.EnterBlock | shared/axp_core/database.py:291-297 | a reused connection reaches the block |
| ReaderPool.Pool.CancelReuse | shared/axp_core/database.py:292-295 | a cancellation between the pop and the block: the connection is dropped and its slot stays counted |
| ReaderPool.Pool.Opened | shared/axp_core/database.py:273-283 | the reserved slot gets its connection even after close |
| ReaderPool.Pool.OpenFailed | shared/axp_core/database.py:284-290 | a failed opening frees the slot |
| ReaderPool.Pool.Return | shared/axp_core/database.py:302-312 | a returned connection is rolled back and idle again, or closed and uncounted |
| ReaderPool.Pool.ReturnRaises | shared/axp_core/database.py:302-312 | a rollback or closing that raises: the slot stays counted |
| ReaderPool.Pool.OpenFailureRaises | shared/axp_core/database.py:284-290 | closing a half-opened connection raises: the slot is not freed |
| ReaderPool.Pool.Close | shared/axp_core/database.py:314-320 | no borrower gets a connection any more; the idle ones are taken out |
| ReaderPool.Pool.CloseIdle | shared/axp_core/database.py:321-322 | the connections taken out are closed one by one |
| ReaderPool.Pool.Drained | shared/axp_core/database.py:314-322 | once closed, with all borrowers back, nothing is counted if and only if no slot was ever lost, and nothing but dropped connections is open |
| ReaderPool.Pool.Starved | shared/axp_core/database.py:258-269 | once `size` slots are lost nobody holds or opens a connection, and none is idle |
| ReaderPool.Run | shared/axp_core/database.py:251-322 | any run of a new pool: lost slots are those of the losing steps taken, at most `size`; closed and quiet, nothing is counted exactly when no such step was taken |
| ReaderPool.TwoCancellations | shared/axp_core/database.py:251-295 | with two slots, two reuses cancelled before their blocks leave the next borrower waiting for nobody |
| ReaderPool.Pool.OpenCount | shared/axp_core/database.py:238-322 | open connections = idle + held + being closed + dropped; idle and held ones at most `size` less the lost slots |
| Joining.JoinOfSplit | client/axp_client/rag/context.py:130 | joining undoes splitting, always |
| Joining.SplitRecovers | client/axp_client/rag/context.py:86 | splitting undoes joining exactly when no text holds an empty line and none but the last ends with a newline |
| Joining.SplitCount | client/axp_client/rag/context.py:130-131 | there are never fewer pieces than chunks, so the seed is always found |
| Joining.FirstPiecesKeepText | client/axp_client/rag/context.py:130 | pairing pieces with chunks keeps the whole text exactly when there are as many |
| Context.RowsRecovered | client/axp_client/rag/context.py:130 | the split gives each chunk its own text back exactly under that condition |
| Context.EmptyLineShiftsText | client/axp_client/rag/context.py:130 | an empty line inside a chunk makes the next chunk's entry carry its text |
| Context.FirstFitting | client/axp_client/rag/context.py:139-145 | the first fitting variant |
| Context.SearchPrefix | client/axp_client/rag/context.py:146-157 | for any counter the search ends on a word prefix that fits while the next longer one does not, or on none when one word does not fit |
| Context.SettledIsLongest | client/axp_client/rag/context.py:150-157 | for a monotone counter that prefix is the longest that fits |
| Context.Choose | client/axp_client/rag/context.py:129-159 | what one block contributes, case by case: all of it if that fits, else the seed with its nearest neighbour, else the seed, else the longest settled prefix of the seed's words |
| Context.ChoiceIsDecided | client/axp_client/rag/context.py:129-157 | that choice is the only one the fallback chain allows, neighbours equally near being taken in chunk order |
| Context.ChoiceKeepsSeed | client/axp_client/rag/context.py:132-157 | what is chosen fits, keeps the seed and only chunks of its block |
| Context.Pack | client/axp_client/rag/context.py:118-162 | the loop over the blocks produces a packing |
| Context.EachIsOffered | client/axp_client/rag/context.py:118-162 | every block, admitted or not, got exactly the choice its share of the budget allowed at its turn |
| Context.ShareIs | client/axp_client/rag/context.py:119-128 | the share of the k-th document is `max(1, B * k // n)`, and the whole budget after the primary round |
| Context.Offer | client/axp_client/rag/context.py:118-162 | one turn of that loop |
| Context.InOrder | client/axp_client/rag/context.py:129-162 | accepted blocks keep their order, and what is rendered is each one's heading and text |
| Context.EachWithinShare | client/axp_client/rag/context.py:119-128 | when a block is added the prompt is within that block's share; it is numbered by its place and keeps its seed |
| Context.PrimaryShare | client/axp_client/rag/context.py:119-125 | after the first `k` blocks of the primary round the prompt holds at most `max(1, B * k // n)` tokens, for any counter |
| Context.PromptWithinBudget | client/axp_client/rag/context.py:118-163 | the final prompt is within `max(1, B)`, tokens and characters alike |
| Context.EmptyBudgetAdmits | client/axp_client/rag/context.py:122-125 | with budget 0 a prompt of one token is admitted: shares are clamped to 1 |
| Context.ReservesAre | client/axp_client/rag/service.py:359-370 | the answer reserve is the largest that fits the window, the evidence budget what is left or the most allowed |
| Context.WindowFits | client/axp_client/rag/service.py:359-370 | prompt, evidence, answer and safety reserve fit the window exactly when the physical budget is at least 1 |
| Context.PackedFitsWindow | client/axp_client/rag/service.py:359-370 | so does the prompt that packing produces within that budget |
| Evidence.SelectDistinctSeeds | client/axp_client/rag/context.py:21-33 | the limited loop is the greedy pass cut short; seeds are more than one chunk apart |
| Evidence.GreedyDominates | client/axp_client/rag/context.py:24-33 | every hit has a kept one next to it that came no later |
| Evidence.SortSorted | client/axp_client/rag/context.py:24-26 | the hits are taken by passage rank, the higher score first, then by chunk; a missing rank comes last |
| Evidence.SelectionIs | client/axp_client/rag/context.py:21-33 | the seeds are in key order and more than one chunk apart, and a hit is left out only for a chosen one next to it that came no later, or because enough were chosen before it |
| Evidence.Window | client/axp_client/rag/context.py:63-70 | the rows around a seed: in order, within the radius, none missing, with their own texts |
| Evidence.BlockIs | client/axp_client/rag/context.py:57-89 | there is a block exactly when the seed's chunk is still there, and it is the chunks within the radius, joined |
| Evidence.BlocksAre | client/axp_client/rag/context.py:57-89 | one block for each seed whose chunk is still there, in order, and no others |
| Evidence.DocumentBlocks | client/axp_client/rag/context.py:57-89 | one document's blocks are those around its selected seeds, in order |
| Evidence.TakeRounds | client/axp_client/rag/context.py:91-118 | the first places in rounds up to the limit, none skipped |
| Evidence.Arrange | client/axp_client/rag/context.py:57-118 | all documents' blocks in that order |
| Evidence.Interleave | client/axp_client/rag/context.py:91-95 | each block once, every document's first block before any second one |
| Evidence.RankDocuments | client/axp_client/rag/context.py:50-56 | the documents shown are the first of the ranking by best document rank and first hit, each once |
| Evidence.AboveIs | client/axp_client/rag/context.py:50-56 | a document ranks above another by its best hit, and among equally good ones by the hit seen first |
| Evidence.LeftOutRanksLower | client/axp_client/rag/context.py:50-56 | a document is left out only for documents that rank above it |
| Evidence.BuildContext | client/axp_client/rag/context.py:48-163 | the steps together from the hits on: ranking of documents, whole rounds, packing, budget kept, every accepted block about a hit of a shown document |
| Hybrid.Fuse | shared/axp_core/hybrid.py:118-129 | each chunk once, with its ranks and the sum of `1 / (k + rank)` over all its places |
| Hybrid.ScoreOnce | shared/axp_core/hybrid.py:118-129 | a chunk that a list has once scores `1 / (k + rank)` there |
| Ranking.AtMostIsOrder | shared/axp_core/hybrid.py:143 | comparing keys number by number and then ids is a total order without ties |
| Ranking.LessIs | shared/axp_core/hybrid.py:143 | keys are compared at the first number in which they differ |
| Ranking.RankInOrder | shared/axp_core/hybrid.py:143 | the ranking is ordered by its keys, compared number by number, and then by id |
| Ranking.RankingIndependentOfOrder | shared/axp_core/hybrid.py:143-145 | the ranking does not depend on the order of insertion |
| Sorting.OneOrder | shared/axp_core/hybrid.py:143-175 | there is one way to put given entries in an order without ties |
| Hybrid.CappedCounts | shared/axp_core/hybrid.py:41-48 | the cap keeps of each document as many rows as it has, up to the maximum |
| Hybrid.CapStep | shared/axp_core/hybrid.py:43-48 | counting kept rows is the same as counting all earlier rows of the document |
| Hybrid.Diversify | shared/axp_core/hybrid.py:39-51 | the first `limit` of the rows among the first `maximum` of their document; a limit below 1 still lets one row through |
| Hybrid.ShareOfDocument | shared/axp_core/hybrid.py:39-51 | no document exceeds the cap in any result |
| Hybrid.Search | shared/axp_core/hybrid.py:117-178 | the whole search from the two lists on: the accepted chunks of either list, each with its fused item and key, in the one order of the final keys, capped by document, cut to the limit and ranked from 1 |
| Hybrid.CappedAre | shared/axp_core/hybrid.py:39-51 | of the final order the cap keeps, in order, exactly the entries with fewer than the maximum of their document before them |
| Hybrid.ShortlistIs | shared/axp_core/hybrid.py:143-160 | the reranker sees the first `depth` chunks by exact matches, fused score and id, and no others |
| Hybrid.FinalOrderIs | shared/axp_core/hybrid.py:160-178 | the final order holds exactly the relevant chunks, each once, by the key it has with its reranker score and then by id |
| Hybrid.SearchIsDetermined | shared/axp_core/hybrid.py:117-178 | neither the reranker's candidates nor the final order depends on the order of insertion |
| Sampling.QuotaStep | shared/axp_core/ann_metrics.py:7-11 | the quota grows by at most one a position |
| Sampling.PrefixCount | shared/axp_core/ann_metrics.py:7-11 | the first `p` positions hold `p * selected // total` selected ones |
| Sampling.ExactlySelected | shared/axp_core/ann_metrics.py:7-11 | exactly `selected` positions are chosen |
| Sampling.WindowCount | shared/axp_core/ann_metrics.py:7-11 | any window of `m` positions holds the floor or the ceiling of its part, the floor when it is whole |
| Sampling.Extract | scripts/benchmark_ann.py:86-110 | the extraction loop stays inside the preallocated keys, the mismatch check never fires, and each selected position's row is at the place its quota gives |
| PathKeys.EscapeIsPerCharacter | shared/axp_core/path_keys.py:24-26 | the three replacements escape each character once |
| PathKeys.EscapedMatchesPrefix | shared/axp_core/path_keys.py:24-31 | under LIKE with a backslash escape, `escape_like(p) + "%"` matches exactly the texts that start with `p`, up to ASCII case |
| PathKeys.MatchedLiesIn | shared/axp_core/path_keys.py:29-31 | a matched key lies in the directory, compared by components, exactly when the stripped prefix is empty or followed by a separator or by nothing |
| PathKeys.InsideMatches | shared/axp_core/path_keys.py:29-31 | nothing in the directory is missed |
| PathKeys.SiblingsMatch | shared/axp_core/path_keys.py:29-31 | the pattern of a directory also matches what continues its name with anything but a separator, and that does not lie in it |
| SourcePaths.DriveRebuilds | shared/axp_core/sources.py:70-74 | a key on a drive is rebuilt from its components |
| SourcePaths.UncRebuilds | shared/axp_core/sources.py:70-74 | a key on a network share is rebuilt from its components, device prefixes included |
| SourcePaths.PosixRebuilds | shared/axp_core/sources.py:70-74 | a key with `/` is rebuilt from its components |
| SourcePaths.PartsInjective | shared/axp_core/sources.py:70-74 | no two keys in normal form have the same components |
| SourcePaths.ParentIsBelow | shared/axp_core/sources.py:77-79 | on keys in normal form `is_parent_path` decides whether the child continues the parent at a separator, naming no longer share than the parent does |
| SourcePaths.WindowsKeyNormal | shared/axp_core/sources.py:35-45 | every accepted path in Windows form has a key in normal form, whatever slashes, dots, empty components and case it was given with |
| SourcePaths.PosixKeyNormal | shared/axp_core/sources.py:46-47 | so has every other path on a system with `/` |
| SourcePaths.UncNormal | shared/axp_core/sources.py:46-47 | a share keeps its normal form through `normpath` exactly in that case |
| SourcePaths.NativeKeyNormal | shared/axp_core/sources.py:46-47 | on Windows any other path has one exactly when the system makes it a path on a drive, or a share in tight form with, behind a separator, something below the share |
| SourcePaths.KeyNormal | shared/axp_core/sources.py:30-47 | exactly when the key of an accepted path is in normal form, on either system |
| SourcePaths.ResolveUp | shared/axp_core/sources.py:30-47 | `..` takes away the component before it, anywhere in a path |
| SourcePaths.ResolveUpAtRoot | shared/axp_core/sources.py:30-47 | and does nothing at a root |
| SourcePaths.PosixKeyIs | shared/axp_core/sources.py:46-47 | on a system with `/` the key is the resolved components of the path, under the working directory unless it starts at the root, folded |
| SourcePaths.DriveKeyIs | shared/axp_core/sources.py:35-45 | a path on a drive gets the drive, the resolved components and their case folded |
| Sources.FindOverlap | shared/axp_core/sources.py:99-109 | the first related row in the order the query yields decides, or none is related |
| Sources.VerdictUnique | shared/axp_core/sources.py:99-109 | there is one such verdict for a list of rows |
| Sources.AgreeIffNotNested | shared/axp_core/sources.py:99-109 | the related rows agree about every key exactly when no row lies inside another |
| Sources.VerdictIndependentOfOrder | shared/axp_core/sources.py:99-109 | without nested rows any two orders give the same kind of verdict |
| Sources.OrderIrrelevantIff | shared/axp_core/sources.py:99-109 | the order of the rows never matters to the kind of verdict exactly when no row lies inside another |
| Sources.NestedVerdictDependsOnOrder | shared/axp_core/sources.py:99-109 | with a key between two nested rows one order says covered and the other subsumes |
| Sources.SharedFile | shared/axp_core/sources.py:77-79 | a file inside one source of an antichain is inside another exactly when the two keys share their components |
| Sources.OneOwner | shared/axp_core/sources.py:77-79 | any file lies inside at most one source of an antichain of keys in normal form |
| Sources.ShareRootTwice | shared/axp_core/sources.py:46-47 | in the root of a share on Windows the path `.` gets a key with a trailing separator, which the root given by name does not: both are accepted and own the same files |
| Sources.UpdateKeeps | shared/axp_core/sources.py:134-149 | moving one source to a key unrelated to the others keeps the antichain |
| Sources.NeverNotUnique | shared/axp_core/sources.py:114-131 | without nested rows no row has the key that another is found to lie under, so the database refuses no insert |
| Sources.NestedKeyTaken | shared/axp_core/sources.py:114-131 | the key of the outer of two nested rows passes the overlap rule, if the inner comes first and subsuming is allowed, although a row has it |
| Sources.AddedTwice | shared/axp_core/sources.py:112-131 | a run: an inner source, then twice an outer one that may subsume it; the database refuses the third |
| Sources.NotUniqueIffNested | shared/axp_core/sources.py:99-131 | some order of the rows and some key make the overlap rule pass what the database refuses exactly when rows are nested |
| Sources.Catalog.AtMostOneOwner | shared/axp_core/sources.py:77-79 | as long as nothing was subsumed and no share root was resolved, any file lies inside at most one source |
| Sources.Catalog.CheckOverlap | shared/axp_core/sources.py:114-120 | the verdict on the rows in query order decides, a subsumed row being let through if that is allowed |
| Sources.Catalog.Add | shared/axp_core/sources.py:112-131 | exactly what is refused, why and for which row, and exactly the row stored; the antichain is kept unless a source is subsumed |
| Sources.Catalog.Update | shared/axp_core/sources.py:134-149 | the same for updates, absent arguments keeping what was there |
| Sources.Catalog.Remove | shared/axp_core/sources.py:166-170 | removing takes out that source only |
| Watchdog.Prune | tray/axp_tray/state.py:83 | forgetting old attempts keeps all that are younger than the window |
| Watchdog.AttemptKeepsPace | tray/axp_tray/state.py:84-88 | an attempt let through on the remembered attempts keeps the pace of the whole history |
| Watchdog.Spacing | tray/axp_tray/state.py:86-88 | consecutive attempts are 60 s apart, and a third within 900 s waits 120 s after the second |
| Watchdog.FourSpanWindow | tray/axp_tray/state.py:83-85 | any four attempts of a run span at least 900 s |
| Watchdog.DaemonWatchdog.Refresh | tray/axp_tray/state.py:80-83 | a new instance restarts the grace period |
| Watchdog.DaemonWatchdog.Decide | tray/axp_tray/state.py:77-98 | the decision over the remembered attempts, in every case |
| Watchdog.MemoryDecides | tray/axp_tray/state.py:83-88 | the remembered attempts decide as the whole history would |
| Watchdog.DiagnosisIs | tray/axp_tray/state.py:89-98 | the reason given is the first that applies: absence, a stale heartbeat, a stalled worker |
| Watchdog.DaemonWatchdog.Attempted | tray/axp_tray/state.py:100-102 | recording an attempt keeps the pace |
| Watchdog.DaemonWatchdog.Poll | tray/axp_tray/app.py:243-256 | one poll recovers exactly when, counted over all attempts ever made, fewer than three are younger than 900 s, the last is 60 s ago, or 120 s with two, the grace period of a present daemon is over and something ails it; over any run of polls the history stays paced |
| Skills.ReadStrings | client/axp_client/skills/schema.py:98-109 | the loop of `_strings` against its specification |
| Skills.StringsAreClean | client/axp_client/skills/schema.py:88-109 | accepted strings are stripped, not empty, within their length |
| Skills.CleanBack | client/axp_client/skills/schema.py:98-109 | distinct clean strings are read back unchanged |
| Skills.AcceptedIff | client/axp_client/skills/schema.py:175-184 | a relative path is accepted unless it begins like a share or a drive, names no component or one goes up |
| Skills.RelativePathNormal | client/axp_client/skills/schema.py:175-184 | every accepted relative path is folded, has no empty, `.` or `..` component and no outer separator |
| Skills.PathsBack | client/axp_client/skills/schema.py:187-197 | accepted relative paths are read back unchanged exactly when they are distinct, at most 1000 long, stripped and not drive-qualified |
| Skills.ExtensionsBack | client/axp_client/skills/schema.py:136-139 | accepted extensions are read back unchanged exactly when they are distinct and at most 16 long |
| Skills.ParsedBounds | client/axp_client/skills/schema.py:112-215 | every accepted Skill meets the declared bounds and the scope rules |
| Skills.UnsupportedIff | client/axp_client/skills/schema.py:208-214 | the error for an unknown schema is raised exactly without a version 1 or 2, or for version 2 without a scope |
| Skills.ScopeIs | client/axp_client/skills/schema.py:187-204 | of the two path lists the one that the kind of scope names is given, and only that one |
| Skills.RoundTrip | client/axp_client/skills/schema.py:63-74 | a Skill within the bounds parses back from its printed form exactly under the two conditions above, in both versions |
| Skills.CommonBack | client/axp_client/skills/schema.py:112-163 | everything outside `retrieval` always survives |
| Skills.CaseVariantsCollide | client/axp_client/skills/schema.py:136-139 | two extensions that fold alike are accepted and then printed as duplicates |
| Skills.DriveBehindSeparator | client/axp_client/skills/schema.py:175-184 | a drive behind a leading separator is accepted and then printed in a refused form |

## Left out

- Tracing.Trace.Snapshot: times are integer ticks, while the code adds up milliseconds as floating point.
- Tracing.Trace.Open: the extra clock reading kept as the start of a new row, status texts, counters and details are not modelled.
- Scan.ScanSource: assumes that reading the catalog, opening and releasing savepoints and committing do not raise, and that a request to stop stays in force; the status row of the source is not modelled.
- Writer.Connection.WriteDocument: when the write fails, says nothing of the counts of new and modified files, which the code raises before and does not lower again.
- Chunker.ChunkText: assumes `max_words` of at least 1; with 0 the code's `range` raises an error. Paragraph and sentence expressions are scanners over characters, and `str.isupper` is a parameter.
- Embedding.BadIsolated: assumes a backend whose answer for a batch depends on its texts alone.
- IdentityResolver.ApplyAdvances: the database's other constraints are not modelled, so the statements considered include ones the database would refuse.
- IdentityResolver.ResolveReadsView: candidate selection and scoring are functions of the columns the resolution reads; the full-text prefilter is taken to select no fewer documents than the matcher accepts.
- IdentityCache.Cache.Lookup: the record of the last generation seen for each file serves telemetry only and is not modelled; a waiting thread polls, and fairness between threads is not stated.
- ReaderPool.Pool.Acquire: timing figures and the wake-up of waiting threads are not modelled.
- Context.WindowFits: the token count of a whole prompt is taken as the sum of its parts, as the code does.
- Evidence.BuildContext: the packing diagnostics are not modelled.
- Hybrid.Fuse: scores are reals, the constant is at least 0, and the other columns merged into an item are functions of the chunk.
- Hybrid.Search: relevance, sort keys and the reranker are parameters; the order the reranker gives its candidates, which the final sort replaces, is not modelled.
- SourcePaths.KeyNormal: the path functions of the standard library are those of Python 3.11 as written in Python; how Windows makes a path absolute is a parameter that yields a path with a root.
- Sources.Catalog.Add: the kind and the time stamps of a source are not modelled, and the default title is a parameter.
- Watchdog.DaemonWatchdog.Decide: clock readings are reals that never go back.
- Skills.RoundTrip: error messages are reduced to their code; case folding is a parameter that is idempotent, drops no character and neither makes nor removes separators and dots.
- The shared diagnostic snapshots of `database.py`, schema migrations and the identity full-text index.
- HTTP server, web front end, tray windows, process control, model backends, extractors and hashing: input and output, or foreign code.
- Relevance weights, prompts, keyword lists and answer policies: heuristics without a property to prove.
- SQLite itself: tables are maps, triggers and cascades are updates of maps, transactions are copies to go back to.
