# Verified model of the poly-book order book pipeline

This project models the parts of poly-book that rebuild one order book in several independent ways, and
the storage protocol underneath them, and proves in Dafny 4.11 that they agree. `dafny verify
dfyconfig.toml` checks everything; nothing is executed.

## What is modelled

| part | files |
|---|---|
| shared entities | `Types.dfy` |
| the level-2 book with checked running totals, and its dense-array alternative | `OrderBook.dfy`, `ArrayBook.dfy` |
| exact decimal text, percent-encoded asset keys and Parquet file names | `Digits.dfy`, `FixedPoint.dfy`, `StorageKeys.dfy` |
| two-phase recovery of a Parquet partition: protocol, concurrent reader, writer, buffering sink | `RecoveryProtocol.dfy`, `RecoveryTimeline.dfy`, `RecoveryReader.dfy`, `ParquetWriter.dfy`, `RecoveryCoverage.dfy`, `ParquetSink.dfy`, `Bags.dfy` |
| replay: event order, seek and loop, and what they refine | `EventOrder.dfy`, `EventKeys.dfy`, `Replay.dfy`, `SeekStarts.dfy`, `SequenceGaps.dfy`, `ReplayTheorems.dfy`, `ReadOrder.dfy`, `SeekExact.dfy`, `Horizon.dfy`, `ReplayExamples.dfy` |
| the live read model and its published cache | `LiveState.dfy`, `LiveOutcomes.dfy`, `Projector.dfy`, `LiveReplay.dfy` |
| the feed dispatcher with its shadow books | `Dispatcher.dfy`, `DispatcherTheorems.dfy`, `Admission.dfy` |
| agreement of dispatcher, live model and replay | `Agreement.dfy`, `AgreementInTime.dfy` |
| start-up recovery from checkpoints and the log | `Hydration.dfy`, `HydrationTheorems.dfy` |
| concrete runs that show where a plausible promise fails | `RunExamples.dfy`, `ReplayExamples.dfy` |

Objects that the program updates in place are classes (`L2Book`, `ArraySide`, `ArrayBook`, `LiveState`,
`Projector`, `Dispatcher`, `ParquetRecordWriter`, `ParquetSink`); every method is proved equal to a step
function on values, and the theorems are about those functions. The object store is a map from paths to
contents whose atomic operations may fail; a recovery run is the history of its states, and a history
that stops early is a crash.

## Main results

1. **Old or new, never a mixture.** A read that lists, fetches the manifest, reads files and retries once
   returns exactly the rows visible at one moment, the old ones or those of one run, for every interleaving
   with any number of recovery runs, each cut anywhere; a missing object is reported only if two runs
   published their final manifests meanwhile (`ReadDatasetWithViewRetry`). The order of the two fetches is
   necessary (`ManifestBeforeListingWouldMix`).
2. **Crash safety over any number of runs.** Whatever runs were cut wherever, the view is the record set of
   the last run that published its staged manifest (`AnyRunsLastPublishedWins`). The code's own history is
   always such a run, and it stops early only if a store operation failed, the old manifest is corrupt or the
   asset has no name (`ReplaceGroup`). A clean run repeated is the identity (`SecondRunIsIdentical`), no run touches another
   partition or asset, and a partition is replaced if and only if everything it can hold lies strictly inside
   the log's coverage (`RecoverableIff`).
3. **Three books, one truth.** For every message run whose receive times never go back and differ between
   an asset's snapshots, and whose last accepted snapshot of the asset had levels, the live projector fed with
   the stamped output has exactly the shadow book's levels, and the receive-time replay of the stored events
   gives that same book without a sequence gap, or, exactly when a continuity reset came after that snapshot,
   finds nothing to start from (`ThreeBooksAgree`, from `RunKeepsFaithful`, `LiveIsFold` and `SeekIsFold`).
   What the books agree on is what the venue said: each entry sets the level its texts spell, on the side they
   name (`EntryArrives`), and a snapshot is taken or refused by what came before it (`SpelledSnapshotFate`).
   The replay to any earlier time gives the books of that time (`ThreeBooksAgreeAtAnyTime`), and for snapshots
   that share a receive time the condition is exact (`SameTimeSnapshotsIff`).
4. **Replay refines a plain fold**, from a snapshot or from a checkpoint, with an exact condition
   (`SeekIsFoldIff`). It never looks past its target (`FutureIrrelevant`). It finds the same events in the same
   order, whatever order they were read in, if and only if events that compare equal are of one kind
   (`SameReadingIff`), and then the book depends on the multiset of events only (`BookIgnoresReadOrder`); the
   sorted window itself does if and only if no two distinct events compare equal (`OrderIrrelevantIff`).
   Nothing crosses a continuity reset if and only if the loop replays no event received before it, as in
   receive time it never does (`ResetIsolatesIff`). It reports exactly the breaks in the numbering of the events
   it replays, the first delta that does not fit, and a crossed book (`ReplayReportsGaps`, `ReplayQuietIff`).
5. **The published cache equals a full rebuild after a command exactly when** the command does not silently
   reject a pending snapshot group (`CacheStaysExactIff`), and a rebuild shows each asset's own book
   (`RebuildShowsBooks`).
6. **Recovery from checkpoints equals replaying the whole log** (`RecoveryEqualsFullReplay`), and the
   fast-forward to the lowest cut neither loses nor repeats a record (`FastForwardExact`). Tailing from the
   reported position continues it exactly (`HandoffContinuesRecovery`).
7. **The sink stores each record once** whenever it returns Ok, whatever flush attempts failed before, if and
   only if no two flushed batches contain the same group and none was stored before (`ParquetSink.Run`,
   `EachGroupOnceIff`). It gives up only after more than five failed attempts or an interrupted drain.
8. **Text and keys are exact**: parsing is characterised by a grammar, printing round-trips, keys of asset ids
   and file names are injective, and the one way two assets' files can be confused is characterised exactly.

## Where the code does not meet a plausible promise

Each of these is stated with its exact condition and a concrete input; the code is modelled as it is.

- An accepted snapshot without levels sends no records, so live and replay do not see it: they agree with the
  shadow book afterwards if and only if it had no levels already (`EmptySnapshotUnseen`,
  `EmptySnapshotAfterRun`, `EmptySnapshotLeavesStaleBid`).
- An oversized or unreadable snapshot message keeps the shadow book but announces a continuity reset, after
  which replay has nothing to start from until the next snapshot (`ThreeBooksAgree`, `RefusalBlocksReplay`,
  `OversizedMessageBlocksReplay`).
- Two snapshots of an asset received at one time are replayed together. The replay agrees with the shadow
  book if and only if every price that only the older one set is set by a later delta (`SameTimeSnapshotsIff`,
  `SameTimeSnapshotsMerge`).
- Of two accepted snapshots the later can have the earlier exchange time if and only if it has none at all: a
  snapshot without one is never stale (`SnapshotTimesNeverGoBack`, `UntimedNeverStale`,
  `UntimedSnapshotAccepted`).
- The comparator does not look at the kind of an event, so the order in which files are read can decide
  between a snapshot event and a delta that are equal otherwise, and with it the book. What replay finds is
  the same for every read order if and only if no such pair exists (`SameReadingIff`,
  `KindTieDependsOnReadOrder`).
- Seeking gathers every snapshot event at one time, the loop only adjacent ones. The two agree if and only
  if the last run sets every price of the events that deltas cut off from it (`GatheringAgreesIff`,
  `StartIsFoldIff`, `SeekingCanDiffer`), and at the target if and only if later deltas set the rest
  (`SeekIsFoldIff`).
- In exchange time a delta received before a reset can be replayed after it, exactly when the loop reaches
  one (`ResetIsolatesIff`, `ExchangeTimeCrossesReset`).
- A rejected pending group changes an asset without marking it changed, and the published view goes stale
  exactly then (`CacheStaysExactIff`, `SilentRejectionLeavesViewStale`). Distinct active-asset lists are not
  needed for the cache; listing an asset twice starts it afresh (`ActiveAssetKeptIff`).
- Equal records flushed in different batches can form equal groups, which share one object; the sink then
  stores fewer rows than it took in, and only then (`EachGroupOnceIff`, `RepeatedRecordIsLost`).
- The array book applies a zero-size snapshot entry as a removal, the map book skips it; they agree on a
  snapshot if and only if no price that has a non-zero entry ends in a zero one (`SnapshotsAgreeIff`,
  `ZeroEntryReadDifferently`).
- Tailing applies every record behind the end of the log, recovery skips those a checkpoint covers; a
  checkpoint whose cut lies past the end of the log makes them differ (`TailAppliesAllIff`,
  `CheckpointAheadOfLogDiverges`).
- The legacy double-encoding match takes a file of one asset for another's if and only if the one id is
  literally the other's encoded key (`FileMatchesOtherAssetIff`, `CollisionExample`).
- A live write that happens to reuse a superseded name is not visible (`LiveWriteVisibleIff`,
  `LiveWriteCanBeHidden`).

## Model

| member | source | states |
|---|---|---|
| OrderBook.L2Book.constructor | crates/pb-book/src/book.rs:34-45 | a new book is empty, and its running totals are the (empty) sums |
| OrderBook.L2Book.CollectSide | crates/pb-book/src/book.rs:66-103 | one side's entries denote, price by price, the last non-zero entry; overflow is reported exactly when some prefix's last-wins total exceeds 64 bits |
| OrderBook.L2Book.TryApplySnapshot | crates/pb-book/src/book.rs:60-107 | replaces the whole book, or names the overflowing side and changes nothing; totals stay equal to the sums of the levels and subtraction never underflows |
| OrderBook.L2Book.TryApplyDelta | crates/pb-book/src/book.rs:126-179 | sets or removes one level; fails exactly when the true new side total exceeds 64 bits, and then changes nothing |
| OrderBook.SnapshotWellFormed | crates/pb-book/src/book.rs:60-107 | an accepted snapshot leaves no empty level and totals that fit, whatever its entries |
| OrderBook.DeltaWellFormed | crates/pb-book/src/book.rs:126-179 | an accepted delta keeps a book well formed, and removing a level is never rejected |
| OrderBook.LastWinsConcat | crates/pb-book/src/book.rs:68-80 | later snapshot entries override earlier ones, price by price |
| OrderBook.BestBidIsHighest | crates/pb-book/src/book.rs:183-185 | the best bid is the highest bid level, absent exactly when there is none |
| OrderBook.BestAskIsLowest | crates/pb-book/src/book.rs:189-191 | the best ask is the lowest ask level, absent exactly when there is none |
| OrderBook.DescendingExact | crates/pb-book/src/book.rs:297-303 | the bid view lists exactly the levels, each once, in strictly falling price order |
| OrderBook.AscendingExact | crates/pb-book/src/book.rs:306-308 | the ask view lists exactly the levels, each once, in strictly rising price order |
| OrderBook.IntegrityMeansUncrossed | crates/pb-book/src/book.rs:251-262 | the integrity check fails if and only if some bid is priced at or above some ask, and then it names the two best prices |
| ArrayBook.ArraySide.constructor | crates/pb-book/benches/array_book.rs:30-38 | a fresh side has no live cell and no cursor |
| ArrayBook.ArraySide.Clear | crates/pb-book/benches/array_book.rs:49-52 | raising the epoch empties the side without touching a cell |
| ArrayBook.ArraySide.Set | crates/pb-book/benches/array_book.rs:54-74 | the live cells change as the map side's levels do, and the cursor stays on the best live price, or absent if there is none |
| ArrayBook.ArraySide.ScanWorse | crates/pb-book/benches/array_book.rs:64-72 | the scan finds the best live price that is worse than the removed one, if any exists |
| ArrayBook.ArraySide.TopK | crates/pb-book/benches/array_book.rs:81-103 | the result is the first k levels of the sorted map side |
| ArrayBook.ArraySide.CursorIsFirst | crates/pb-book/benches/array_book.rs:77-79 | the cursor's level is the first of the sorted map side, for every epoch |
| ArrayBook.ArrayBook.ApplySnapshot | crates/pb-book/benches/array_book.rs:119-128 | after a snapshot each side holds what its entries leave when set one by one |
| ArrayBook.ArrayBook.ApplyDelta | crates/pb-book/benches/array_book.rs:54-74 | a delta changes one side as the map book would and leaves the other alone |
| ArrayBook.SnapshotsAgreeIff | crates/pb-book/benches/array_book.rs:119-128 | array book and map book read a snapshot alike if and only if no price with a non-zero entry ends in a zero one |
| RunExamples.ZeroEntryReadDifferently | crates/pb-book/benches/array_book.rs:119-128 | a concrete entry list that the two books read differently |
| ArrayBook.RunsAgree | crates/pb-book/benches/array_book.rs:106-128 | over any run of snapshots and deltas that fit and are read alike, both books hold the same levels |
| FixedPoint.ParseIsExact | crates/pb-types/src/fixed.rs:19-55 | the parser returns a value if and only if the text fits the grammar with at most the allowed fraction digits and the scaled value fits 128 bits; the value is exact |
| FixedPoint.ParsePriceIff | crates/pb-types/src/fixed.rs:116-129 | a text is read as a price if and only if it spells, by the grammar, a number on the price grid; a larger number is out of range |
| FixedPoint.ParseSizeIff | crates/pb-types/src/fixed.rs:19-55 | a text is read as a size if and only if it spells a number that fits 64 bits |
| FixedPoint.PriceRoundTrip | crates/pb-types/src/fixed.rs:109-129 | parsing inverts printing for every price from 0.0000 to 1.0000 |
| FixedPoint.SizeRoundTrip | crates/pb-types/src/fixed.rs:218-237 | parsing inverts printing for every 64-bit size |
| StorageKeys.StorageKeyFor | crates/pb-types/src/newtype.rs:29-40 | the byte loop builds the percent-encoded key |
| StorageKeys.DecodeOfKey | crates/pb-types/src/newtype.rs:29-40 | percent decoding inverts the key on every byte string (section 2.1 of RFC 3986) |
| StorageKeys.KeyInjective | crates/pb-types/src/newtype.rs:29-40 | distinct ids have distinct keys |
| StorageKeys.AssetKeyInjective | crates/pb-types/src/newtype.rs:29-40 | distinct asset ids, as texts, have distinct keys: the UTF-8 bytes read back as the text (section 3 of RFC 3629) |
| StorageKeys.KeyIsPlain | crates/pb-types/src/newtype.rs:29-40 | a key is one path component of plain characters and escapes, and is the id itself if that is plain throughout |
| StorageKeys.FileAssetKeyIff | crates/pb-types/src/newtype.rs:47-67 | a file name yields a key if and only if it is that non-empty key, a timestamp, sixteen hexadecimal digits and a length, and the suffix |
| StorageKeys.FileAssetKeyOfGeneratedName | crates/pb-types/src/newtype.rs:47-67 | the right-split recovers any non-empty key, underscores included, from every generated file name |
| StorageKeys.FileNameInjective | crates/pb-store/src/writer.rs:584-597 | a generated name determines asset key, first timestamp, hash and length |
| StorageKeys.FileMatchesOtherAssetIff | crates/pb-types/src/newtype.rs:75-90 | a file generated for one id matches another asset's key if and only if the one id is literally the other's encoded key |
| StorageKeys.NoPercentNoCollision | crates/pb-types/src/newtype.rs:75-90 | an id without a percent sign never matches another asset |
| StorageKeys.CollisionExample | crates/pb-types/src/newtype.rs:84-90 | a concrete pair of ids whose files are confused |
| RecoveryProtocol.EmptyPartitionConsistent | crates/pb-store/src/writer.rs:240-265 | a partition without objects or manifest satisfies the recovery invariant |
| RecoveryProtocol.LiveWriteVisibleIff | crates/pb-store/src/writer.rs:525-544 | a live write between runs keeps the invariant, and its rows become visible if and only if no manifest supersedes their name |
| RecoveryProtocol.LiveWriteCanBeHidden | crates/pb-store/src/writer.rs:525-544 | rows that a completed run replaced by others, written again, are in no file of the view |
| RecoveryProtocol.LayoutIs | crates/pb-store/src/writer.rs:252-266 | staged object, promoted object and manifest lie in the three places below the base path, and the objects' name reads back as asset, first timestamp, hash and length |
| RecoveryProtocol.StemMatchesIff | crates/pb-store/src/writer.rs:472-489 | a manifest's file is named by the partition's key or by that key encoded once more |
| RecoveryProtocol.RunStaysInScope | crates/pb-store/src/writer.rs:279-356 | both manifests of a run are valid, state the request's coverage, and pass the writer's and the reader's scope checks; every deleted path lies under the partition's two directories and names its asset |
| RecoveryProtocol.ScopesAgree | crates/pb-replay/src/reader.rs:310-364 | for a manifest looked up for one asset, the reader's scope check accepts exactly what the writer's does |
| RecoveryProtocol.RunTouchesOnlyItsGroup | crates/pb-store/src/writer.rs:267-356 | at every point of a run, every path outside the partition and its manifest is as it was |
| RecoveryProtocol.OtherAssetsSurvive | crates/pb-store/src/writer.rs:407-447 | another asset's generated files survive every run, unless its id is literally the recovered asset's encoded key |
| RecoveryProtocol.ResolvedDuringRun | crates/pb-replay/src/reader.rs:176-229 | a listing and a manifest fetched no earlier resolve to the old files, the staged object alone or the promoted object alone, at every pair of times |
| RecoveryProtocol.FileDuringRun | crates/pb-store/src/writer.rs:267-356 | a selected file read at any later time holds the rows it was selected for, and can be missing only after the final manifest |
| RecoveryProtocol.ManifestBeforeListingWouldMix | crates/pb-replay/src/reader.rs:184-224 | with the two fetches in the other order a first recovery would be read with old and new rows together |
| RecoveryProtocol.RunOutcome | crates/pb-store/src/writer.rs:267-356 | a run cut after any operation leaves the old view before its staged manifest and exactly its own rows after it, with every normal object active or superseded |
| RecoveryProtocol.AnyRunsLastPublishedWins | crates/pb-store/src/writer.rs:240-368 | after any number of runs, each cut anywhere, the view is the record set of the last run that published, or the original view |
| RecoveryProtocol.SeparatePartitionUndisturbed | crates/pb-store/src/writer.rs:240-368 | a run changes neither objects nor manifest of any separate partition |
| RecoveryProtocol.DistinctPartitionsAreSeparate | crates/pb-store/src/writer.rs:400-447 | under one base, partitions that differ in dataset, hour (of as many path components) or unambiguous asset share no object and no manifest |
| RecoveryProtocol.CleanRunLeavesOneObject | crates/pb-store/src/writer.rs:323-367 | a completed run without failed deletes leaves one normal object of the group and none under the hidden prefix |
| RecoveryProtocol.SecondRunIsIdentical | crates/pb-store/src/writer.rs:240-368 | repeating a clean run with the same records reproduces the same store, manifest included |
| RecoveryProtocol.CleanRunExists | crates/pb-store/src/writer.rs:240-368 | from every state, also one left by a crashed run, a clean and complete run exists |
| RecoveryProtocol.FailedDeletesAreRetried | crates/pb-store/src/writer.rs:248-265 | whatever a finished run failed to delete is superseded for every later run of the group, whatever runs were cut wherever in between, unless that run makes it active |
| RecoveryReader.FetchManifest | crates/pb-replay/src/reader.rs:231-308 | returns the partition's manifest, none, or an error, exactly as the writer's own check of the same state would |
| RecoveryReader.DatasetFiles | crates/pb-replay/src/reader.rs:176-229 | selects the listing minus superseded plus active files, the listing being taken no later than the manifest |
| RecoveryReader.ReadFiles | crates/pb-replay/src/reader.rs:409-440 | sums the rows of the selected files, each fetched at its own time, up to the row cap; a missing file or more rows than that are the only errors |
| RecoveryTimeline.TimelineEvolves | crates/pb-store/src/writer.rs:240-368 | over any runs, cut anywhere, a later state's manifest still names whatever an earlier one named and every normal object that appeared or vanished, and objects keep their content |
| RecoveryTimeline.ResolvedLater | crates/pb-replay/src/reader.rs:176-229 | so an earlier listing and a later manifest resolve to exactly the files of the later state |
| RecoveryTimeline.VanishedMeansFinal | crates/pb-store/src/writer.rs:330-368 | a selected file disappears only if meanwhile some run published its final manifest |
| RecoveryTimeline.StateShows | crates/pb-store/src/writer.rs:267-356 | every state shows the rows of the start or exactly the rows of one run |
| RecoveryReader.ReadDatasetWithViewRetry | crates/pb-replay/src/reader.rs:445-475 | for every interleaving with any number of runs, each cut anywhere, the read returns exactly the rows visible at one moment of it, old or of one run; a missing-object error escapes only if two runs published their final manifests meanwhile, so never beside one run |
| ParquetWriter.GroupRecords | crates/pb-store/src/writer.rs:149-166 | records are grouped by dataset, asset key and hour, in order, each in one group |
| Bags.GroupingConserves | crates/pb-store/src/writer.rs:149-166 | grouping neither loses nor repeats a record |
| RecoveryCoverage.RecordsTogetherIff | crates/pb-store/src/writer.rs:149-166 | two records share a partition if and only if they share dataset, asset and hour; implausible times share one of their own |
| ParquetWriter.ObjectPathInjective | crates/pb-store/src/writer.rs:546-598 | under one base path, an object's path determines its partition and its rows |
| ParquetWriter.ParquetRecordWriter.WriteBatch | crates/pb-store/src/writer.rs:149-175 | only objects of the batch's groups are added, whatever fails; all of them are there on success, and it fails exactly when a store operation did |
| ParquetWriter.ParquetRecordWriter.WriteBatchReplacing | crates/pb-store/src/writer.rs:187-238 | a batch with a record outside a completely covered hour is refused whole; otherwise each partition ends with exactly its old or exactly its new rows, and on success all with the new ones; it fails only if a store operation did or a partition's manifest is corrupt or its asset unnamed; the report counts every group and every record, and a partition keeps at most one object more than the cleanup failures reported |
| ParquetWriter.ParquetRecordWriter.AllRecoverable | crates/pb-store/src/writer.rs:195-218 | accepts a batch if and only if every record is of a replaceable dataset in a completely covered, plausible hour |
| RecoveryCoverage.SamePartitionIff | crates/pb-store/src/writer.rs:98-120 | plausible timestamps share a partition if and only if they lie in one hour; all others share one of their own |
| RecoveryCoverage.RecoverableIff | crates/pb-store/src/writer.rs:65-75 | a record may be replaced if and only if it is of a replaceable dataset and every moment of its partition lies strictly inside the log's coverage |
| RecoveryCoverage.ReplacedPartitionCovered | crates/pb-store/src/writer.rs:187-238 | whatever lies in a partition that an accepted batch replaces was received inside the coverage |
| RecoveryCoverage.BoundaryHourRefused | crates/pb-store/src/writer.rs:65-75 | a record of an hour of which the log covers one microsecond is refused |
| ParquetWriter.ParquetRecordWriter.ReplaceGroup | crates/pb-store/src/writer.rs:240-368 | the store's history is a run of the protocol, complete if the call succeeds and cleanly completed if it reports no cleanup failure; the call fails only if a store operation failed, or untouched if the old manifest is corrupt or the asset unnamed, and reports exactly the failed deletes |
| ParquetWriter.ParquetRecordWriter.PublishStaged | crates/pb-store/src/writer.rs:267-307 | phase one adds the staged object and then the staged manifest, in this order, or stops |
| ParquetWriter.ParquetRecordWriter.Promote | crates/pb-store/src/writer.rs:309-337 | phase two adds the promoted object and then the final manifest, in this order, or stops |
| ParquetWriter.ParquetRecordWriter.Cleanup | crates/pb-store/src/writer.rs:339-356 | only superseded objects are deleted, and with no failure none is left |
| ParquetWriter.ParquetRecordWriter.PublishManifest | crates/pb-store/src/writer.rs:370-398 | a manifest outside its scope is never written, and a written one is read back |
| ParquetSink.ParquetSink.Flush | crates/pb-store/src/parquet_sink.rs:149-183 | retries write only the batch's own objects; the buffer is emptied on success and kept on failure, and it fails if and only if more than five attempts did |
| ParquetSink.ParquetSink.Run | crates/pb-store/src/parquet_sink.rs:50-107 | an Ok result means each group of each flushed batch is stored once, those whose names were in use having been there already, whatever attempts failed; the rows then grew by exactly the records taken in if and only if no group was flushed twice or there before; it fails only after more than five failed attempts or an interrupted drain |
| ParquetSink.TickFlushes | crates/pb-store/src/parquet_sink.rs:90-107 | a tick flushes everything received before it: batches up to it are those of a sink closed there |
| ParquetSink.ParquetSink.Shutdown | crates/pb-store/src/parquet_sink.rs:60-88 | the drained records are flushed too; an incomplete drain is an error, and any other means more than five failed attempts |
| ParquetSink.FlushStoresBatch | crates/pb-store/src/parquet_sink.rs:149-183 | a successful flush leaves every group flushed so far stored once, under its own name, next to those known before |
| ParquetSink.EachGroupOnceIff | crates/pb-store/src/parquet_sink.rs:50-107 | the distinct groups of the flushed batches hold exactly their records if no group occurs in two batches, and fewer otherwise |
| ParquetSink.DistinctRecordsSuffice | crates/pb-store/src/parquet_sink.rs:50-107 | pairwise distinct records never make a group occur twice |
| ParquetSink.RepeatedRecordIsLost | crates/pb-store/src/parquet_sink.rs:90-183 | a record received again after a flush shares its object and is not stored a second time |
| EventOrder.CompareIsTotalPreorder | crates/pb-replay/src/engine.rs:401-450 | the eight-key comparator is reflexive, antisymmetric up to ties and transitive in both clock modes |
| EventKeys.BeforeIff | crates/pb-replay/src/engine.rs:401-465 | one event precedes another if and only if the first of seven numeric keys that differs is smaller, clock first and absent ordinals last, or all agree and its id is absent or first in the dictionary |
| EventOrder.SortCorrect | crates/pb-replay/src/engine.rs:401-432 | the sort yields the same events in order |
| EventOrder.StableOnClass | crates/pb-replay/src/engine.rs:401-432 | events that compare equal keep their arrival order |
| EventOrder.FilterSort | crates/pb-replay/src/engine.rs:401-432 | dropping events and sorting commute |
| EventOrder.OrderIrrelevantIff | crates/pb-replay/src/engine.rs:401-432 | the sorted window is independent of the read order if and only if no two distinct events compare equal |
| Replay.ReplaySnapshotEvents | crates/pb-replay/src/engine.rs:513-529 | a snapshot group replaces the book by its levels with the last event's sequence, or fails and changes nothing |
| Replay.Seed | crates/pb-replay/src/engine.rs:193-268 | the book and index where replay starts: after a checkpoint on this side of the reset, or after the last snapshot group |
| Replay.RunLoop | crates/pb-replay/src/engine.rs:270-350 | the grouped loop terminates and yields the denoted book, gap notices and rejections |
| SeekStarts.StartsAfterCheckpoint | crates/pb-replay/src/engine.rs:197-224 | with a checkpoint no older than the last reset, replay starts from exactly its levels and replays exactly the events later than it, both on the replay clock |
| SeekStarts.StartsAtSnapshot | crates/pb-replay/src/engine.rs:225-268 | otherwise it starts behind the last eligible snapshot event, from exactly the levels of all eligible ones of its time, and finds nothing to start from if and only if there is none |
| SequenceGaps.LoopReportsGaps | crates/pb-replay/src/engine.rs:270-350 | the loop reports, in event order and with both numbers, exactly the deltas that do not continue the numbering, up to the target or to the first delta that does not fit, which it reports as a reset |
| SequenceGaps.LoopGapsExact | crates/pb-replay/src/engine.rs:298-319 | when nothing is rejected, the loop's notices are exactly the gaps up to the target |
| SequenceGaps.NoGapsIff | crates/pb-replay/src/engine.rs:298-319 | there is no gap if and only if each delta's number is one more, modulo 2^64, than that of the event before it |
| Replay.ReconstructBook | crates/pb-replay/src/engine.rs:182-374 | sorting, seeding and looping yield the denoted result, error or book |
| SequenceGaps.ReplayReportsGaps | crates/pb-replay/src/engine.rs:182-374 | a replay adds exactly those notices for the events behind its start, and a last one if and only if the book is crossed |
| SequenceGaps.ReplayQuietIff | crates/pb-replay/src/engine.rs:182-374 | it adds none if and only if no delta was rejected, the numbers are consecutive and the book is not crossed |
| SequenceGaps.LostDeltasReported | crates/pb-book/src/book.rs:229-247 | number 7 right after number 4 is a gap in which 5 was expected |
| ReplayTheorems.LoopIsFold | crates/pb-replay/src/engine.rs:270-350 | the loop over a time-sorted history is the plain fold of the events up to the target |
| ReplayTheorems.FoldConcat | crates/pb-replay/src/engine.rs:270-350 | folding a history split outside a snapshot run is folding its parts in turn |
| ReplayTheorems.SeekIsFold | crates/pb-replay/src/engine.rs:224-350 | seeking to the last snapshot gives the book that folding the whole history from empty gives, unless a reset intervenes |
| ReplayTheorems.GatheringAgreesIff | crates/pb-replay/src/engine.rs:240-287 | gathering all snapshot events of one time equals the last adjacent run if and only if that run sets every price the others do |
| ReplayTheorems.StartIsFoldIff | crates/pb-replay/src/engine.rs:224-268 | so the book that seeking starts from is the fold up to there if and only if it does |
| ReplayExamples.SeekingCanDiffer | crates/pb-replay/src/engine.rs:240-287 | a concrete window on which seeking and folding give different books |
| SeekExact.SeekIsFoldIff | crates/pb-replay/src/engine.rs:224-350 | the book reached at the target has the fold's levels if and only if every price set only by the cut-off snapshot events is set by a later delta |
| SeekExact.DeltasAgreeIff | crates/pb-replay/src/engine.rs:300-335 | deltas over two books reach the same levels if and only if they set every price where the books differ |
| ReplayTheorems.ContiguousMeansCovered | crates/pb-replay/src/engine.rs:240-287 | contiguous snapshot groups satisfy that condition |
| ReplayTheorems.CheckpointIsFold | crates/pb-replay/src/engine.rs:199-223 | a checkpoint equal to the fold at its boundary yields the levels of the whole history at any later target |
| ReplayTheorems.LatestResetIsMax | crates/pb-replay/src/engine.rs:376-385 | the boundary is the latest continuity reset at or before the target, if any |
| ReplayTheorems.ReadOrderIrrelevant | crates/pb-replay/src/engine.rs:182-374 | book, notices and the checkpoint flag depend only on the multiset of window events when equal-comparing events are identical |
| ReplayTheorems.DistinctOrdinalsSuffice | crates/pb-replay/src/engine.rs:387-400 | distinct ingest ordinals guarantee that |
| ReadOrder.SameReadingIff | crates/pb-replay/src/engine.rs:387-432 | whatever the read order, replay finds the same kinds, sides, prices, sizes, sequences and times in the same order if and only if no two events that compare equal differ in kind |
| ReadOrder.BookIgnoresReadOrder | crates/pb-replay/src/engine.rs:182-374 | then book, checkpoint flag, error and what the notices say depend on the multiset of window events only |
| ReplayExamples.KindTieDependsOnReadOrder | crates/pb-replay/src/engine.rs:387-432 | a concrete window, a zero-size snapshot event tied with a delta, whose book depends on the read order |
| Horizon.FutureIrrelevant | crates/pb-replay/src/engine.rs:182-374 | in either clock mode, with or without a checkpoint, the whole result is what it is without any book event later than the target |
| ReplayTheorems.ResetIsolatesIff | crates/pb-replay/src/engine.rs:193-350 | in either clock mode, with or without a checkpoint: the replay loop sees the same events as without everything received before the latest reset if and only if none of its events was received before it, and then the whole result is the same |
| ReplayTheorems.ResetIsolates | crates/pb-replay/src/engine.rs:193-268 | in receive time that is always so: deleting every event and checkpoint received before the latest reset leaves the whole result unchanged |
| ReplayExamples.ExchangeTimeCrossesReset | crates/pb-replay/src/engine.rs:270-350 | a concrete window for which the result differs in exchange time |
| LiveState.RetainListed | crates/pb-api/src/live_state.rs:149-165 | keeps the state of assets listed once, starts the others afresh, and drops the rest |
| LiveState.LiveState.SetActive | crates/pb-api/src/live_state.rs:149-165 | retains active assets and drops a pending group of an asset no longer active |
| LiveState.LiveState.MaterializePendingBeforeRecord | crates/pb-api/src/live_state.rs:178-203 | flushes exactly when the record does not continue the pending group; at most one group is ever pending |
| LiveState.LiveState.MaterializePendingForAsset | crates/pb-api/src/live_state.rs:205-230 | applies the group as a snapshot or records a warning, and reports whether it was accepted |
| LiveState.LiveState.RecordSnapshotEvent | crates/pb-api/src/live_state.rs:250-284 | extends or starts the group; the branch that would first apply another group of the asset is unreachable |
| LiveState.LiveState.Apply | crates/pb-api/src/live_state.rs:370-422 | one record changes the state as denoted and reports exactly the accepted and touched assets |
| LiveOutcomes.EventIsGrouped | crates/pb-api/src/live_state.rs:250-285 | a snapshot event joins the pending group of its asset, times and venue id, or starts one, and moves only its asset's times; any other record leaves no group pending |
| LiveOutcomes.PendingIsApplied | crates/pb-api/src/live_state.rs:178-248 | a record that does not continue the pending group has its levels applied first; a crossed or refused book leaves its own warning, and no other asset changes |
| LiveOutcomes.DeltaIsTaken | crates/pb-api/src/live_state.rs:286-308 | a delta sets its level, its asset's times and, if the book is crossed, a warning; one that does not fit leaves a warning only |
| LiveOutcomes.CheckpointSeedsIff | crates/pb-api/src/live_state.rs:370-424 | a tailed checkpoint seeds its asset if and only if that has not taken a snapshot yet |
| LiveOutcomes.OthersOnlyWarn | crates/pb-api/src/live_state.rs:370-424 | a trade or a validation changes nothing but the pending group; an ingest event leaves its warning besides, with its own times |
| LiveState.IngestChangesNoBook | crates/pb-api/src/live_state.rs:310-336 | an ingest event changes no book, initialized flag or pending group; it leaves one warning, with its asset or globally; only reconnects move the session, to the status and id of their kind |
| LiveState.CheckpointReplacesOrWarns | crates/pb-api/src/live_state.rs:339-366 | a checkpoint that fits replaces its asset's book, times and flag, with a warning if the book is crossed; any other keeps them and leaves a warning; no other asset changes |
| Projector.Projector.constructor | crates/pb-api/src/live_state.rs:551-558 | the first published view is the full rebuild |
| Projector.RebuildShowsBooks | crates/pb-api/src/live_state.rs:425-475 | a full rebuild shows each asset's own bids falling and asks rising, the highest bid and the lowest ask, absent exactly when there is none, and the asset's sequence, times, flags and warning |
| Projector.Projector.HandleCommand | crates/pb-api/src/live_state.rs:560-621 | a command updates the state and refreshes only the changed assets' views |
| Projector.Projector.RefreshAssetViews | crates/pb-api/src/live_state.rs:644-652 | rebuilds or removes the views of the given assets, in any order, and no other |
| Projector.CacheStaysExactIff | crates/pb-api/src/live_state.rs:560-652 | after a command the incremental view equals the full rebuild if and only if no pending group was silently rejected |
| RunExamples.SilentRejectionLeavesViewStale | crates/pb-api/src/live_state.rs:560-652 | three commands from the initial state after which the published view is stale |
| Projector.CacheExactOverRuns | crates/pb-api/src/live_state.rs:560-652 | over any run without silent rejections the published view is always the full rebuild |
| Projector.ActiveAssetKeptIff | crates/pb-api/src/live_state.rs:149-165 | exactly the listed assets remain, and a known one keeps its state if and only if it is listed once |
| LiveReplay.LiveTracksFold | crates/pb-api/src/live_state.rs:178-308 | after any stream the applied book is the fold of a prefix of the asset's events and the pending group is the rest |
| LiveReplay.LiveIsFold | crates/pb-api/src/live_state.rs:178-308 | with the pending group applied, the live book is the fold of the asset's events, whatever other records come between |
| LiveReplay.WellGroupedMeansContiguous | crates/pb-api/src/live_state.rs:178-203 | groups contiguous in the stream are contiguous among the asset's own events |
| LiveReplay.ArrivalOrderIsSorted | crates/pb-replay/src/engine.rs:401-432 | events stamped in arrival order are already sorted for replay |
| LiveReplay.LiveEqualsReplay | crates/pb-replay/src/engine.rs:224-350 | the live book equals the receive-time reconstruction of the stored events, read back in any order |
| Dispatcher.Dispatcher.NextSequenceFor | crates/pb-feed/src/dispatcher.rs:659-672 | returns the asset's counter, zero at first, and advances it with wrap-around |
| Dispatcher.Dispatcher.DispatchBook | crates/pb-feed/src/dispatcher.rs:210-434 | a snapshot message is capped, checked for staleness and retransmission, converted whole and validated before any tracker moves |
| Dispatcher.Dispatcher.DispatchPriceChange | crates/pb-feed/src/dispatcher.rs:435-586 | the message's entries are handled in order; an oversized message is dropped |
| Dispatcher.Dispatcher.DispatchChange | crates/pb-feed/src/dispatcher.rs:458-585 | an entry is sent with the next sequence, applied to the shadow book, and cross-checked after the asset's last entry |
| Admission.EntryArrives | crates/pb-feed/src/dispatcher.rs:458-585 | an entry whose text buys or sells sends one bid or ask delta of the price and size it spells, with the next number; the shadow book's side has that level set, or the book is dropped with a reset; and a mismatch is reported after the asset's last entry if and only if the venue's best prices are not the book's |
| Admission.PrintedIsSaid | crates/pb-feed/src/dispatcher.rs:459-485 | an entry with a buying or selling text and a printed price and size says just these |
| Admission.OtherEntriesSkipped | crates/pb-feed/src/dispatcher.rs:459-470 | an entry with any other side text, price or size is skipped without a trace |
| Admission.EntriesInOrder | crates/pb-feed/src/dispatcher.rs:435-458 | each entry is handled after those before it; a message of more than 20000 is dropped |
| Admission.BidTopIff | crates/pb-feed/src/dispatcher.rs:752-770 | the bid check reports a mismatch if and only if the price the venue states is not the highest bid, zero standing for none |
| Admission.AskTopIff | crates/pb-feed/src/dispatcher.rs:752-770 | the ask check likewise, for the lowest ask and one |
| DispatcherTheorems.ReconnectStartsAfresh | crates/pb-feed/src/dispatcher.rs:137-194 | a reconnect announces itself and a continuity reset, and whatever messages follow, state and output continue as those of a dispatcher just started in that session |
| Dispatcher.Dispatcher.DispatchMessage | crates/pb-feed/src/dispatcher.rs:130-629 | every message changes state and output as denoted |
| Admission.SpelledSnapshotFate | crates/pb-feed/src/dispatcher.rs:210-434 | after any run, a snapshot whose texts spell levels is dropped with a reset if too long, skipped with a notice if a later one was accepted since the last reconnect, skipped silently if it has the last accepted hash, dropped with the shadow book if it overflows, and taken otherwise |
| Admission.UnreadableSnapshotFate | crates/pb-feed/src/dispatcher.rs:210-365 | one with a text that spells nothing is treated alike, but never taken |
| Admission.TakenSnapshotSends | crates/pb-feed/src/dispatcher.rs:379-433 | a taken snapshot sends one event per level, bids before asks, in the message's order, numbered from zero, with the message's times and hash |
| DispatcherTheorems.SnapshotAllOrNothing | crates/pb-feed/src/dispatcher.rs:210-434 | an accepted snapshot sends every level in order, bids before asks, and becomes the shadow book; a rejected one sends none and moves no tracker |
| DispatcherTheorems.PrintedIsReadBack | crates/pb-feed/src/dispatcher.rs:312-338 | every level of a message that prints prices and sizes is read back exactly, in order |
| DispatcherTheorems.PrintedSnapshotArrives | crates/pb-feed/src/dispatcher.rs:313-390 | the levels such a snapshot prints are, if they fit, exactly the shadow book's levels |
| DispatcherTheorems.SnapshotTimesNeverGoBack | crates/pb-feed/src/dispatcher.rs:255-390 | of two accepted snapshots of an asset with no reconnect in between, the later has no earlier exchange time, unless it has none |
| DispatcherTheorems.TrackerAfter | crates/pb-feed/src/dispatcher.rs:255-390 | only an accepted snapshot with an exchange time moves the tracked time, only one with a hash the tracked hash, and only a reconnect forgets them |
| RunExamples.UntimedSnapshotAccepted | crates/pb-feed/src/dispatcher.rs:255-390 | a snapshot without exchange time accepted after one stamped 5, where one stamped 4 would be stale |
| DispatcherTheorems.HandleKeepsFaithful | crates/pb-feed/src/dispatcher.rs:196-586 | every message keeps every shadow book equal to what the events sent since its last accepted snapshot rebuild |
| DispatcherTheorems.RunKeepsFaithful | crates/pb-feed/src/dispatcher.rs:196-672 | so it is after any run; those events are numbered consecutively from zero, wrapping at 64 bits |
| DispatcherTheorems.NumberedReplaysQuietly | crates/pb-replay/src/engine.rs:270-350 | replaying consecutively numbered events reports no sequence gap anywhere |
| DispatcherTheorems.SentReplaysToShadow | crates/pb-feed/src/dispatcher.rs:360-433 | replaying what was sent since the last accepted snapshot gives the shadow book's levels without a notice |
| Agreement.OutputShape | crates/pb-feed/src/dispatcher.rs:196-629 | messages whose receive times never go back, with distinct ones for an asset's snapshots, give an output with non-decreasing times and contiguous snapshot groups, the last accepted one behind its asset's mark |
| Agreement.FoldIgnoresOrdinals | crates/pb-bin/src/commands/ingest.rs:221-224 | stamping ordinals does not change what the events fold to |
| Agreement.StampedInArrivalOrder | crates/pb-bin/src/commands/ingest.rs:164-224 | the stamped output is in arrival order for every asset |
| Agreement.LiveFromSnapshot | crates/pb-api/src/live_state.rs:178-308 | a snapshot makes the live book independent of everything before it, pending groups included |
| Agreement.ReplayFromSnapshot | crates/pb-replay/src/engine.rs:224-350 | replay of stored events whose last part is numbered from a snapshot gives that part's fold and no gap notice |
| Agreement.ThreeBooksAgree | crates/pb-feed/src/dispatcher.rs:360-433 | after any such run the live book has the shadow book's levels; the replay gives that same book without a gap if no continuity reset came after the asset's last snapshot, and otherwise finds nothing to start from |
| AgreementInTime.ThreeBooksAgreeAtAnyTime | crates/pb-replay/src/engine.rs:182-374 | replaying what a run stored to any target time gives the shadow book and the live book of the messages up to then |
| AgreementInTime.SameTimeSnapshotsIff | crates/pb-replay/src/engine.rs:224-350 | if an asset's snapshots may share a receive time, the replay has the shadow book's levels if and only if every price that only older snapshots of the last one's time set is set by a later delta |
| AgreementInTime.SameTimeLiveAgrees | crates/pb-api/src/live_state.rs:178-308 | the live book has them then as well, unless the last snapshot continues the very group sent right before it |
| RunExamples.SameTimeSnapshotsMerge | crates/pb-replay/src/engine.rs:224-268 | two snapshots at one time: the replay holds both bids, shadow book and live book only the second |
| Agreement.RefusalBlocksReplay | crates/pb-feed/src/dispatcher.rs:218-365 | a later snapshot message that is oversized or unreadable keeps the shadow book but announces a reset, so the stored run can no longer be replayed |
| RunExamples.OversizedMessageBlocksReplay | crates/pb-feed/src/dispatcher.rs:218-247 | such a run of two messages |
| Agreement.FirstSnapshotIsLive | crates/pb-feed/src/dispatcher.rs:210-434 | a first printed snapshot with at least one level establishes the hypotheses of the agreement |
| Agreement.EmptySnapshotUnseen | crates/pb-feed/src/dispatcher.rs:379-433 | an accepted snapshot without levels sends nothing, so the live book then agrees with the shadow book if and only if it was empty |
| Agreement.EmptySnapshotAfterRun | crates/pb-feed/src/dispatcher.rs:379-433 | after a run on which the books agreed, live book and replayed book agree with the shadow book after such a snapshot if and only if the book had no levels before it |
| RunExamples.EmptySnapshotLeavesStaleBid | crates/pb-feed/src/dispatcher.rs:379-433 | a run of two messages after which live and replayed book hold a bid and the shadow book is empty |
| Hydration.LowestCut | crates/pb-api/src/hydration.rs:112-122 | a resume offset exists exactly when there are active assets and all have a cut, and is then the smallest |
| Hydration.ResumeOffset | crates/pb-api/src/hydration.rs:112-122 | the minimum over the cut map, in any order, is that offset |
| Hydration.SeedCheckpoints | crates/pb-api/src/hydration.rs:61-110 | kept checkpoints are applied and their log positions become the cuts; one without a position is ignored when a log is configured |
| Hydration.ReplayWalTail | crates/pb-api/src/hydration.rs:161-239 | applies, in order, exactly the readable records past the resume offset and past their own asset's cut, up to the first undecodable one, and reports where it stopped reading |
| Hydration.Hydrate | crates/pb-api/src/hydration.rs:43-155 | the final state and report after seeding, replay and readiness |
| HydrationTheorems.ReadyIff | crates/pb-api/src/hydration.rs:124-146 | with a log configured the model becomes ready if and only if every recovery source completed; in feed-only mode unless the checkpoint read failed |
| HydrationTheorems.AppliedIffPastOwnCut | crates/pb-api/src/hydration.rs:177-225 | an active asset's record is applied exactly when its end lies past that asset's own cut |
| HydrationTheorems.FastForwardExact | crates/pb-api/src/hydration.rs:112-122 | starting at the lowest cut loses and repeats no record of an active asset |
| HydrationTheorems.RecoveryEqualsFullReplay | crates/pb-api/src/hydration.rs:43-239 | with exact checkpoints, recovery gives every active asset the levels that replaying the whole log gives |
| HydrationTheorems.ReadsTheRest | crates/pb-wal/src/reader.rs:76-102 | a reader opened at the reported end of the log reads exactly what is appended later |
| HydrationTheorems.HandoffContinuesRecovery | crates/pb-api/src/hydration.rs:148-239 | tailing from the reported position leads to the very state that recovery of the longer log gives, provided no checkpoint covers more than the log held |
| HydrationTheorems.TailAppliesAllIff | crates/pb-api/src/hydration.rs:177-225 | recovery of the longer log applies exactly what tailing applies if and only if every appended record ends past the resume offset and its own asset's cut |
| RunExamples.CheckpointAheadOfLogDiverges | crates/pb-api/src/hydration.rs:112-239 | a checkpoint ahead of its log after which the two differ |

## Left out

- Replay.ReconstructBook: returns the continuity events that replay adds itself (gaps, rejected deltas, a crossed book); the window's own ingest events, which the source copies in front of them, and the detail texts are not modelled.
- ParquetSink.ParquetSink.Run: assumes that objects whose names the batches use hold what they are named for, as all objects the writers store do. The backoff delays between retries are not modelled.
- RecoveryReader.ReadDatasetWithViewRetry: covers one partition beside recovery runs; live writes during a read, and reads over several hours or all assets at once, are not modelled.
- ArrayBook.ArraySide.Clear: the epoch is an unbounded number; wrap-around of the source's counter is not modelled.
- EventOrder.SortCorrect: the stable in-place sort is modelled as a stable sort of sequences; only its result is captured, not the exchanges in memory.
- Dispatcher.Dispatcher.DispatchMessage: trade and tick-size messages, resnapshot requests, clock-skew metrics and the interning cache are not modelled; JSON and timestamp parsing happen before the model.
- LiveState.LiveState.Apply: the books inside the per-asset maps of the live model, and likewise of the dispatcher, are values changed by the same step functions the mutable `L2Book` is proved against; updating a book in place inside its map is not captured.
- Hydration.Hydrate: the log is a sequence of decoded or undecodable records with end offsets; segments, checksums, torn tails and pruning are not modelled; a reader's position is one global offset.
- Projector.Projector.HandleCommand: broadcasts to subscribers, the watch channel and the feed mode are not modelled; floating-point view fields (mid price, spread) are left out.
- Agreement.ThreeBooksAgree: assumes receive times that never go back and distinct ones for an asset's snapshot messages, an asset whose last accepted snapshot had levels, and a target time no earlier than the last message; `ThreeBooksAgreeAtAnyTime`, `SameTimeSnapshotsIff` and `EmptySnapshotAfterRun` say what happens otherwise.
- HydrationTheorems.RecoveryEqualsFullReplay: assumes a decodable log with increasing offsets and checkpoints equal to the fold at their cut that split no snapshot group.
- Arrow and Parquet encoding, compression and JSON: an encoder is a pair of functions, content hash and byte length, assumed to determine the content; a manifest is a value.
- Hour text: the calendar path of an hour is replaced by its decimal hour number, one path component.
- Asset ids are texts of Unicode scalar values, and their UTF-8 bytes are computed from them.
- The choice of lookback window and of the latest checkpoint, replay validation, schema-version tests, metrics, settings, network, async channels and the web interface: thin or outside the core.
- Floating-point price and size conversions: rounding is library behaviour.
