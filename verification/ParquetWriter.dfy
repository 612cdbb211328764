/** The Parquet writer over a fallible object store: appending batches, and recovering whole partitions. */
module ParquetWriter {
  import opened Types
  import opened Bags
  import opened Digits
  import opened StorageKeys
  import opened RecoveryProtocol

  datatype StoreError = StoreFailure | UnsafeRecovery

  // ---------------------------------------------------------------------------------------------
  // The object store
  // ---------------------------------------------------------------------------------------------

  datatype DeleteOutcome = Deleted | NothingThere | DeleteFailed

  /**
   Atomic operations that may fail; a failed write may or may not have taken effect. `failures` counts the
   operations that reported one.
   */
  class ObjectStore {
    var objects: Store
    ghost var history: seq<Store>
    ghost var failures: nat

    constructor (objects: Store)
      ensures Valid() && this.objects == objects && history == [objects] && failures == 0
    {
      this.objects := objects;
      history := [objects];
      failures := 0;
    }

    /** The history records the state after every operation that took effect. */
    ghost predicate Valid()
      reads this
    {
      |history| > 0 && history[|history| - 1] == objects
    }

    twostate predicate Untouched()
      reads this
    {
      objects == old(objects) && history == old(history)
    }

    /** Exactly one operation took effect, and it produced `state`. */
    twostate predicate Became(state: Store)
      reads this
    {
      objects == state && history == old(history) + [state]
    }

    method Put(p: Path, content: StoreObject) returns (ok: bool)
      requires Valid()
      modifies this
      ensures Valid()
      ensures Became(old(objects)[p := content]) || (!ok && Untouched())
      ensures failures == old(failures) + if ok then 0 else 1
    {
      ok := false;
      if * {
        objects := objects[p := content];
        history := history + [objects];
        ok := *;
      }
      failures := failures + if ok then 0 else 1;
    }

    method Get(p: Path) returns (r: Result<Option<StoreObject>, StoreError>)
      modifies this`failures
      ensures r == Err(StoreFailure) || r == Ok(if p in objects then Some(objects[p]) else None)
      ensures failures == old(failures) + if r.Ok? then 0 else 1
    {
      if * {
        failures := failures + 1;
        return Err(StoreFailure);
      }
      return Ok(if p in objects then Some(objects[p]) else None);
    }

    /** The Parquet objects of one asset below a directory. */
    method ListAsset(dir: Path, asset: string) returns (r: Result<set<Path>, StoreError>)
      modifies this`failures
      ensures r == Err(StoreFailure) || r == Ok(set p | p in objects && Under(dir, p) && NameMatches(p, asset))
      ensures failures == old(failures) + if r.Ok? then 0 else 1
    {
      if * {
        failures := failures + 1;
        return Err(StoreFailure);
      }
      return Ok(set p | p in objects && Under(dir, p) && NameMatches(p, asset));
    }

    method Delete(p: Path) returns (outcome: DeleteOutcome)
      requires Valid()
      modifies this
      ensures Valid()
      ensures Became(old(objects) - {p}) || (outcome != Deleted && Untouched())
      ensures outcome == NothingThere ==> p !in objects
      ensures failures == old(failures) + if outcome == DeleteFailed then 1 else 0
    {
      if p !in objects {
        return NothingThere;
      }
      outcome := DeleteFailed;
      if * {
        objects := objects - {p};
        history := history + [objects];
        if * {
          return Deleted;
        }
      }
      failures := failures + 1;
    }
  }

  // ---------------------------------------------------------------------------------------------
  // Grouping
  // ---------------------------------------------------------------------------------------------

  const HOUR_US: nat := 3_600_000_000
  const MIN_PLAUSIBLE_PARTITION_US: nat := 1_000_000_000_000_000
  const MAX_PLAUSIBLE_PARTITION_US: nat := 10_000_000_000_000_000
  const INVALID_TIMESTAMP: string := "invalid_timestamp"

  /** The partition of a timestamp; implausible timestamps are quarantined together. */
  function HourKey(ts: U64): string {
    if MIN_PLAUSIBLE_PARTITION_US <= ts <= MAX_PLAUSIBLE_PARTITION_US then Dec(ts / HOUR_US) else INVALID_TIMESTAMP
  }

  datatype GroupKey = GroupKey(dataset: string, asset: string, hour: string)

  type Groups = map<GroupKey, seq<PersistedRecord>>

  function KeyFor(r: PersistedRecord): GroupKey {
    GroupKey(r.DatasetName(), AssetKey(r.AssetPartition()), HourKey(r.PartitionTimestampUs()))
  }

  function GroupsOf(records: seq<PersistedRecord>): Groups {
    Grouped(records, KeyFor)
  }

  method GroupRecords(records: seq<PersistedRecord>) returns (groups: Groups)
    ensures groups == GroupsOf(records)
  {
    groups := map[];
    for i := 0 to |records|
      invariant groups == GroupsOf(records[..i])
    {
      assert records[..i + 1][..i] == records[..i];
      groups := Push(groups, KeyFor(records[i]), records[i]);
    }
    assert records[..|records|] == records;
  }

  // ---------------------------------------------------------------------------------------------
  // The writer
  // ---------------------------------------------------------------------------------------------

  function GroupOf(base: Path, k: GroupKey): Group {
    Group(base, k.dataset, [k.hour], k.asset)
  }

  function ObjectPath(enc: Encoder, base: Path, k: GroupKey, rows: seq<PersistedRecord>): Path
    requires |rows| > 0
  {
    NormalDir(GroupOf(base, k)) + [FileName(enc, GroupOf(base, k), rows)]
  }

  /** Under one base path, an object's path determines its partition and its rows. */
  lemma ObjectPathInjective(enc: Encoder, base: Path, k1: GroupKey, r1: seq<PersistedRecord>, k2: GroupKey,
                            r2: seq<PersistedRecord>)
    requires CollisionFree(enc) && |r1| > 0 && |r2| > 0
    requires ObjectPath(enc, base, k1, r1) == ObjectPath(enc, base, k2, r2)
    ensures k1 == k2 && r1 == r2
  {
    var p1, p2, n := ObjectPath(enc, base, k1, r1), ObjectPath(enc, base, k2, r2), |base|;
    assert p1[n] == k1.dataset && p1[n + 1] == k1.hour && p1[n + 2] == FileName(enc, GroupOf(base, k1), r1);
    assert p2[n] == k2.dataset && p2[n + 1] == k2.hour && p2[n + 2] == FileName(enc, GroupOf(base, k2), r2);
    FileNameInjective(k1.asset, r1[0].PartitionTimestampUs(), enc.hash(r1), enc.size(r1),
                      k2.asset, r2[0].PartitionTimestampUs(), enc.hash(r2), enc.size(r2));
  }

  /** The objects that hold a family of groups. */
  ghost predicate Holds(enc: Encoder, base: Path, objects: Store, groups: Groups) {
    forall k <- groups | |groups[k]| > 0 :: ObjectPath(enc, base, k, groups[k]) in objects
                                           && objects[ObjectPath(enc, base, k, groups[k])] == Parquet(groups[k])
  }

  /** Compared with `before`, only objects of `groups` were added. */
  ghost predicate OnlyAdds(enc: Encoder, base: Path, before: Store, after: Store, groups: Groups) {
    && before.Keys <= after.Keys
    && forall p <- after | p !in before || after[p] != before[p] ::
         exists k <- groups ::
           |groups[k]| > 0 && p == ObjectPath(enc, base, k, groups[k]) && after[p] == Parquet(groups[k])
  }

  /** Observed log coverage, constructed only as an increasing range of plausible timestamps. */
  function NewCoverage(startUs: U64, endUs: U64): Result<Coverage, StoreError> {
    if startUs >= endUs || startUs < MIN_PLAUSIBLE_PARTITION_US || endUs > MAX_PLAUSIBLE_PARTITION_US
    then Err(UnsafeRecovery) else Ok(Coverage(startUs, endUs))
  }

  /** Coverage as its constructor makes it. */
  predicate Constructed(c: Coverage) {
    NewCoverage(c.startUs, c.endUs) == Ok(c)
  }

  predicate ContainsCompleteHour(c: Coverage, ts: U64) {
    var hourStart := ts / HOUR_US * HOUR_US;
    c.startUs < hourStart && hourStart + HOUR_US < U64_LIMIT && c.endUs >= hourStart + HOUR_US
  }

  /** A record recovery may replace: received-time partitioned, in an hour the log covers completely. */
  predicate Recoverable(r: PersistedRecord, c: Coverage) {
    && (r.BookRecord? || r.TradeRecord? || r.IngestRecord?)
    && ContainsCompleteHour(c, r.PartitionTimestampUs())
    && HourKey(r.PartitionTimestampUs()) != INVALID_TIMESTAMP
  }

  datatype RecoveryReport = RecoveryReport(partitionsPublished: nat, recordsPublished: nat, cleanupFailures: nat)

  class ParquetRecordWriter {
    const store: ObjectStore
    const base: Path
    const enc: Encoder

    constructor (store: ObjectStore, base: Path, enc: Encoder)
      ensures this.store == store && this.base == base && this.enc == enc
    {
      this.store, this.base, this.enc := store, base, enc;
    }

    /** Writes every group of the batch as one object, stopping at the first failure. */
    method WriteBatch(records: seq<PersistedRecord>) returns (r: Result<(), StoreError>)
      requires CollisionFree(enc) && store.Valid()
      modifies store
      ensures store.Valid()
      ensures OnlyAdds(enc, base, old(store.objects), store.objects, GroupsOf(records))
      ensures r.Ok? ==> Holds(enc, base, store.objects, GroupsOf(records))
      ensures store.failures == old(store.failures) + if r.Ok? then 0 else 1
    {
      var groups := GroupRecords(records);
      GroupedMembers(records, KeyFor);
      hide CollisionFree, OnlyAdds, Grouped, ObjectPath;
      NothingAddedYet(enc, base, store.objects, groups);
      var todo := groups.Keys;
      ghost var done: Groups := map[];
      while todo != {}
        invariant store.Valid() && todo <= groups.Keys && done.Keys == groups.Keys - todo
        invariant forall k <- done :: done[k] == groups[k]
        invariant OnlyAdds(enc, base, old(store.objects), store.objects, groups)
        invariant Holds(enc, base, store.objects, done) && store.failures == old(store.failures)
        decreases todo
      {
        var k :| k in todo;
        ghost var before := store.objects;
        PutStep(enc, base, old(store.objects), before, k, groups, done);
        var ok := store.Put(ObjectPath(enc, base, k, groups[k]), Parquet(groups[k]));
        if !ok {
          return Err(StoreFailure);
        }
        todo, done := todo - {k}, done[k := groups[k]];
      }
      assert done == groups;
      return Ok(());
    }

    /**
     Recovers every complete hour of a log replay, one partition after another. A batch with any record
     that is not recoverable is refused as a whole. Otherwise each partition ends with exactly its old
     rows or exactly its new ones, and with the new ones if the call succeeds. The call fails only if a
     store operation did, or if some partition cannot be published.
     */
    method WriteBatchReplacing(records: seq<PersistedRecord>, coverage: Coverage)
      returns (r: Result<RecoveryReport, StoreError>, ghost done: set<GroupKey>)
      requires CollisionFree(enc) && store.Valid() && Constructed(coverage)
      modifies store
      ensures store.Valid()
      ensures records == [] ==> r == Ok(RecoveryReport(0, 0, 0))
      ensures (exists x <- records :: !Recoverable(x, coverage)) ==> r == Err(UnsafeRecovery) && store.Untouched()
      ensures r.Ok? ==> r.value.partitionsPublished == |GroupsOf(records)| && r.value.recordsPublished == |records|
      ensures r.Ok? ==> done == GroupsOf(records).Keys
      ensures r.Ok? && Orderly(enc, base, GroupsOf(records), old(store.objects)) ==>
                Tidy(base, GroupsOf(records).Keys, store.objects, r.value.cleanupFailures)
      ensures Orderly(enc, base, GroupsOf(records), old(store.objects)) ==>
                Progress(enc, base, GroupsOf(records), done, old(store.objects), store.objects)
      ensures Follows(old(store.history), store.history)
      ensures r.Ok? ==> store.failures == old(store.failures) + r.value.cleanupFailures
      ensures r.Err? && (forall x <- records :: Recoverable(x, coverage)) ==>
                Explained(base, GroupsOf(records), r.error, Since(old(store.history), store.history),
                          store.failures > old(store.failures),
                          Orderly(enc, base, GroupsOf(records), old(store.objects)))
    {
      done := {};
      ghost var orderly := Orderly(enc, base, GroupsOf(records), store.objects);
      if orderly {
        NoProgressYet(enc, base, GroupsOf(records), store.objects);
      }
      if records == [] {
        return Ok(RecoveryReport(0, 0, 0)), done;
      }
      var safe := AllRecoverable(records, coverage);
      if !safe {
        return Err(UnsafeRecovery), done;
      }
      var groups := GroupRecords(records);
      RecoverableGroups(records, coverage);
      AllRows(records);
      r, done := ReplaceGroups(groups, coverage, orderly);
    }

    method AllRecoverable(records: seq<PersistedRecord>, coverage: Coverage) returns (safe: bool)
      ensures safe <==> forall x <- records :: Recoverable(x, coverage)
    {
      for i := 0 to |records|
        invariant forall x <- records[..i] :: Recoverable(x, coverage)
      {
        if !Recoverable(records[i], coverage) {
          return false;
        }
        assert records[..i + 1] == records[..i] + [records[i]];
      }
      assert records[..|records|] == records;
      return true;
    }

    /** Recovers the groups one after another, in any order, stopping at the first failure. */
    method ReplaceGroups(groups: Groups, coverage: Coverage, ghost orderly: bool)
      returns (r: Result<RecoveryReport, StoreError>, ghost done: set<GroupKey>)
      requires CollisionFree(enc) && store.Valid() && Constructed(coverage)
      requires forall k <- groups :: ReplaceableGroup(GroupOf(base, k)) && |groups[k]| > 0
      requires orderly ==> Unambiguous(groups.Keys) && Progress(enc, base, groups, {}, store.objects, store.objects)
      modifies store
      ensures store.Valid()
      ensures r.Ok? ==> r.value.partitionsPublished == |groups| && done == groups.Keys
      ensures r.Ok? ==> r.value.recordsPublished == Rows(groups, groups.Keys)
      ensures orderly ==> Progress(enc, base, groups, done, old(store.objects), store.objects)
      ensures r.Ok? && orderly ==> Tidy(base, groups.Keys, store.objects, r.value.cleanupFailures)
      ensures Follows(old(store.history), store.history)
      ensures r.Ok? ==> Grew(old(store.failures), store.failures, r.value.cleanupFailures)
      ensures r.Err? ==> Explained(base, groups, r.error, Since(old(store.history), store.history),
                                   store.failures > old(store.failures), orderly)
    {
      hide Standing, Rows, CollisionFree, ReplaceableGroup, Explained, Progress, Tidy, Unambiguous, Follows, Since,
        Grew;
      ghost var start, before, started := store.objects, store.history, store.failures;
      var todo, published, failures := groups.Keys, 0, 0;
      done := {};
      StandingAtStart(enc, base, groups, start, orderly);
      FollowsItself(before);
      assert Grew(started, started, 0) by {
        NotGrown(started);
      }
      while todo != {}
        invariant store.Valid() && todo == groups.Keys - done && done <= groups.Keys
        invariant published + Rows(groups, todo) == Rows(groups, groups.Keys)
        invariant Standing(enc, base, groups, done, start, store.objects, failures, orderly)
        invariant Follows(before, store.history) && Grew(started, store.failures, failures)
        decreases todo
      {
        var k :| k in todo;
        var outcome, settled := ReplaceOne(groups, k, coverage, done, start, before, started, failures, orderly);
        if outcome.Err? {
          return Err(outcome.error), settled;
        }
        OneGroupsRows(groups, todo, k);
        failures, published := failures + outcome.value, published + |groups[k]|;
        todo, done := todo - {k}, settled;
      }
      NoRows(groups);
      StandingMeans(enc, base, groups, done, start, store.objects, failures, orderly);
      return Ok(RecoveryReport(|groups|, published, failures)), done;
    }

    method ReplaceOne(groups: Groups, k: GroupKey, coverage: Coverage, ghost done: set<GroupKey>, ghost start: Store,
                      ghost before: seq<Store>, ghost started: nat, ghost failures: nat, ghost orderly: bool)
      returns (r: Result<nat, StoreError>, ghost settled: set<GroupKey>)
      requires CollisionFree(enc) && store.Valid() && Constructed(coverage) && k in groups && k !in done
      requires forall j <- groups :: ReplaceableGroup(GroupOf(base, j)) && |groups[j]| > 0
      requires done <= groups.Keys && Standing(enc, base, groups, done, start, store.objects, failures, orderly)
      requires Follows(before, store.history) && Grew(started, store.failures, failures)
      modifies store
      ensures store.Valid() && (settled == done || settled == done + {k}) && (r.Ok? ==> settled == done + {k})
      ensures r.Ok? ==> Standing(enc, base, groups, settled, start, store.objects, failures + r.value, orderly)
      ensures orderly ==> Progress(enc, base, groups, settled, start, store.objects)
      ensures Follows(before, store.history)
      ensures r.Ok? ==> Grew(started, store.failures, failures + r.value)
      ensures r.Err? ==> Explained(base, groups, r.error, Since(before, store.history), store.failures > started,
                                   orderly)
    {
      hide Progress, Tidy, Unambiguous, CollisionFree, ReplaceableGroup, GroupOutcome, FailuresCounted, Unpublishable,
        Nameless;
      var q := Request(GroupOf(base, k), groups[k], coverage);
      ghost var objects, was := store.objects, store.history;
      r := ReplaceGroup(q);
      if r == Err(UnsafeRecovery) {
        RefusedGroup(enc, base, groups, k, done, start, was, store.history, orderly);
        StillUnpublishable(base, groups, before, was, store.history);
      }
      settled := done + {k};
      if orderly {
        settled := OneMoreGroup(enc, base, groups, done, start, objects, store.objects, k, q, r.Ok?);
        if r.Ok? {
          TidyAfterGroup(enc, base, groups, done, start, objects, store.objects, k, q, failures, r.value);
        }
      }
    }

    /** Publishes a checked manifest and verifies it by reading it back. */
    method PublishManifest(q: Request, manifest: Manifest) returns (ok: bool)
      requires store.Valid()
      modifies store
      ensures store.Valid()
      ensures var g, path := q.group, ManifestPath(q.group);
              if manifest.Valid() && WriterScope(g, path, manifest)
              then && (store.Became(old(store.objects)[path := ManifestDoc(manifest)]) || (!ok && store.Untouched()))
                   && store.failures == old(store.failures) + if ok then 0 else 1
              else !ok && store.Untouched() && store.failures == old(store.failures)
    {
      var g, path := q.group, ManifestPath(q.group);
      if !manifest.Valid() || !WriterScope(g, path, manifest) {
        return false;
      }
      ok := store.Put(path, ManifestDoc(manifest));
      if ok {
        var published := store.Get(path);
        ok := published == Ok(Some(ManifestDoc(manifest)));
      }
    }

    /** Stores the encoded rows and verifies what was stored. */
    method PutVerified(p: Path, rows: seq<PersistedRecord>) returns (ok: bool)
      requires store.Valid()
      modifies store
      ensures store.Valid()
      ensures store.Became(old(store.objects)[p := Parquet(rows)]) || (!ok && store.Untouched())
      ensures store.failures == old(store.failures) + if ok then 0 else 1
    {
      ok := store.Put(p, Parquet(rows));
      if ok {
        var written := store.Get(p);
        ok := written == Ok(Some(Parquet(rows)));
      }
    }

    /**
     Replaces one partition: stage, publish the staged manifest, promote, publish the final manifest,
     delete what was replaced. Whatever fails, the store history is a run of the protocol. It fails only if a
     store operation did, the previous manifest is unreadable or the asset is empty; what it reports on success
     is the number of deletes that failed.
     */
    method ReplaceGroup(q: Request) returns (r: Result<nat, StoreError>)
      requires store.Valid() && ReplaceableGroup(q.group) && |q.rows| > 0 && q.coverage.startUs < q.coverage.endUs
      modifies store
      ensures store.Valid() && GroupOutcome(enc, q, old(store.objects), store.objects, r.Ok?)
      ensures r.Ok? ==> FailuresCounted(enc, q, old(store.objects), store.objects, r.value)
      ensures r == Ok(0)
              ==> exists h :: CompletedCleanly(enc, q, h) && h[0] == old(store.objects) && h[|h| - 1] == store.objects
      ensures ReadManifest(old(store.objects), q.group).Err? ==> r.Err? && store.Untouched()
      ensures Follows(old(store.history), store.history)
      ensures r.Ok? ==> store.failures == old(store.failures) + r.value
      ensures r == Err(StoreFailure) ==> store.failures > old(store.failures)
      ensures r == Err(UnsafeRecovery) ==> ReadManifest(old(store.objects), q.group).Err? || |q.group.asset| == 0
    {
      hide Step, IsRun, ReadManifest, FinalManifest, Leftover, NormalObject, StagedObject;
      var g := q.group;
      ghost var before := store.history;
      if ValidRequest(q) {
        RanStep(enc, q, before, before, before);
        RunIsOutcome(enc, q, before, before, false);
      }
      var found := FindReplaced(g);
      if found.Err? {
        return Err(found.error);
      }
      if |g.asset| == 0 {
        // No manifest can name an empty asset, so publication is refused after staging.
        var staged := PutVerified(StagedPath(enc, q), q.rows);
        return Err(if staged then UnsafeRecovery else StoreFailure);
      }
      r := RunProtocol(q, found.value);
      RunIsOutcome(enc, q, before, store.history, r.Ok?);
      if r == Ok(0) {
        CleanRunWithoutFailures(enc, q, before, store.history);
      }
    }

    /** Everything the run is going to replace; any failed listing or unreadable manifest is an error. */
    method FindReplaced(g: Group) returns (r: Result<set<Path>, StoreError>)
      modifies store`failures
      ensures r.Ok? ==> ReadManifest(store.objects, g).Ok? && r.value == Superseded(store.objects, g)
      ensures store.failures == old(store.failures) + if r == Err(StoreFailure) then 1 else 0
      ensures r == Err(UnsafeRecovery) ==> ReadManifest(store.objects, g).Err?
    {
      var existing := store.ListAsset(NormalDir(g), g.asset);
      if existing.Err? {
        return Err(existing.error);
      }
      var abandoned := store.ListAsset(StagedDir(g), g.asset);
      if abandoned.Err? {
        return Err(abandoned.error);
      }
      var previous := ReadPrevious(g);
      if previous.Err? {
        return Err(previous.error);
      }
      var superseded := existing.value + abandoned.value;
      if previous.value.Some? {
        superseded := superseded + previous.value.value.active;
        superseded := superseded + previous.value.value.superseded;
      }
      return Ok(superseded);
    }

    /** Fetches the manifest in force and checks it. */
    method ReadPrevious(g: Group) returns (r: Result<Option<Manifest>, StoreError>)
      modifies store`failures
      ensures r.Ok? ==> ReadManifest(store.objects, g) == Ok(r.value)
      ensures store.failures == old(store.failures) + if r == Err(StoreFailure) then 1 else 0
      ensures r == Err(UnsafeRecovery) ==> ReadManifest(store.objects, g).Err?
    {
      var found := store.Get(ManifestPath(g));
      if found.Err? {
        return Err(found.error);
      }
      if found.value.None? {
        return Ok(None);
      }
      if !found.value.value.ManifestDoc? {
        return Err(UnsafeRecovery);
      }
      var m := found.value.value.manifest;
      if !m.Valid() || !WriterScope(g, ManifestPath(g), m) {
        return Err(UnsafeRecovery);
      }
      return Ok(Some(m));
    }

    method RunProtocol(q: Request, superseded: set<Path>) returns (r: Result<nat, StoreError>)
      requires store.Valid() && ValidRequest(q) && superseded == Superseded(store.objects, q.group)
      modifies store
      ensures store.Valid() && Ran(enc, q, old(store.history), store.history)
      ensures r.Ok? ==> |store.history| >= |old(store.history)| + 4
      ensures r.Ok? ==> |Leftover(FinalManifest(enc, q, old(store.objects)).superseded, store.objects)| <= r.value
      ensures r.Err? ==> r.error == StoreFailure
      ensures store.failures == old(store.failures) + if r.Ok? then r.value else 1
    {
      ghost var before := store.history;
      var ok := PublishStaged(q, superseded, before);
      if !ok {
        return Err(StoreFailure);
      }
      ok := Promote(q, superseded, before);
      if !ok {
        return Err(StoreFailure);
      }
      var failures := Cleanup(q, superseded + {StagedPath(enc, q)} - {RecoveredPath(enc, q)}, before);
      return Ok(failures);
    }

    /** Phase one: stage the object under the hidden prefix and make it authoritative. */
    method PublishStaged(q: Request, superseded: set<Path>, ghost before: seq<Store>) returns (ok: bool)
      requires store.Valid() && ValidRequest(q) && store.history == before
      requires superseded == Superseded(store.objects, q.group)
      modifies store
      ensures store.Valid() && Ran(enc, q, before, store.history)
      ensures ok ==> |store.history| == |before| + 2
      ensures store.failures == old(store.failures) + if ok then 0 else 1
    {
      var staged, recovered := StagedPath(enc, q), RecoveredPath(enc, q);
      NewManifestsInScope(enc, q, store.objects);
      ok := PutVerified(staged, q.rows);
      RanStep(enc, q, before, before, store.history);
      if ok {
        ghost var during := store.history;
        ok := PublishManifest(q, NewManifest(q, staged, superseded + {recovered} - {staged}));
        RanStep(enc, q, before, during, store.history);
      }
    }

    /** Phase two: materialize the same rows in the normal partition and point the manifest at them. */
    method Promote(q: Request, superseded: set<Path>, ghost before: seq<Store>) returns (ok: bool)
      requires store.Valid() && ValidRequest(q) && Ran(enc, q, before, store.history) && |store.history| == |before| + 2
      requires superseded == Superseded(before[|before| - 1], q.group)
      modifies store
      ensures store.Valid() && Ran(enc, q, before, store.history)
      ensures ok ==> |store.history| == |before| + 4
      ensures store.failures == old(store.failures) + if ok then 0 else 1
    {
      var staged, recovered := StagedPath(enc, q), RecoveredPath(enc, q);
      NewManifestsInScope(enc, q, before[|before| - 1]);
      ghost var during := store.history;
      ok := PutVerified(recovered, q.rows);
      RanStep(enc, q, before, during, store.history);
      if ok {
        during := store.history;
        ok := PublishManifest(q, NewManifest(q, recovered, superseded + {staged} - {recovered}));
        RanStep(enc, q, before, during, store.history);
      }
    }

    /** Deletes the superseded objects best-effort and counts the failures. */
    method Cleanup(q: Request, stale: set<Path>, ghost before: seq<Store>) returns (failures: nat)
      requires ValidRequest(q) && store.Valid() && Ran(enc, q, before, store.history) && |store.history| >= |before| + 4
      requires stale == FinalManifest(enc, q, before[|before| - 1]).superseded
      modifies store
      ensures store.Valid() && Ran(enc, q, before, store.history) && |store.history| >= |before| + 4
      ensures |Leftover(stale, store.objects)| <= failures && store.failures == old(store.failures) + failures
    {
      NothingLeftOver(stale - stale, store.objects);
      hide Ran, Leftover, FinalManifest, ValidRequest;
      var todo := stale;
      failures := 0;
      while todo != {}
        invariant store.Valid() && Ran(enc, q, before, store.history) && |store.history| >= |before| + 4
        invariant todo <= stale && |Leftover(stale - todo, store.objects)| <= failures
        invariant store.failures == old(store.failures) + failures
        decreases todo
      {
        var p :| p in todo;
        var failed := DeleteStale(q, stale, todo, p, before);
        if failed {
          failures := failures + 1;
        }
        todo := todo - {p};
      }
      assert stale - {} == stale;
    }

    method DeleteStale(q: Request, ghost stale: set<Path>, ghost todo: set<Path>, p: Path, ghost before: seq<Store>)
      returns (failed: bool)
      requires ValidRequest(q) && store.Valid() && Ran(enc, q, before, store.history) && |store.history| >= |before| + 4
      requires stale == FinalManifest(enc, q, before[|before| - 1]).superseded && p in todo && todo <= stale
      modifies store
      ensures store.Valid() && Ran(enc, q, before, store.history) && |store.history| >= |before| + 4
      ensures |Leftover(stale - (todo - {p}), store.objects)|
              <= |Leftover(stale - todo, old(store.objects))| + if failed then 1 else 0
      ensures store.failures == old(store.failures) + if failed then 1 else 0
    {
      hide Leftover, FinalManifest, IsRun, ValidRequest;
      ghost var s := store.history;
      var outcome := store.Delete(p);
      RanStep(enc, q, before, s, store.history);
      failed := outcome == DeleteFailed;
      OneMoreDelete(stale, todo, p, s[|s| - 1], store.objects, failed);
    }
  }

  /** The later history extends the earlier one. */
  predicate Follows(before: seq<Store>, after: seq<Store>) {
    0 < |before| && before <= after
  }

  lemma NotGrown(n: nat)
    ensures Grew(n, n, 0)
  {
  }

  lemma FollowsItself(history: seq<Store>)
    requires |history| > 0
    ensures Follows(history, history)
  {
  }

  /** The states from the end of the earlier history on. */
  function Since(before: seq<Store>, after: seq<Store>): seq<Store> {
    if Follows(before, after) then after[|before| - 1..] else []
  }

  /** A partition of the batch has an empty asset, which no manifest can name, or an unreadable manifest. */
  ghost predicate Unpublishable(base: Path, groups: Groups, states: seq<Store>) {
    Nameless(groups)
    || exists k, i :: k in groups && 0 <= i < |states| && ReadManifest(states[i], GroupOf(base, k)).Err?
  }

  /** The counter has gone up by this much. */
  predicate Grew(before: nat, now: nat, more: nat) {
    now == before + more
  }

  /** Why a batch failed: a store operation did, or some partition cannot be published. */
  ghost predicate Explained(base: Path, groups: Groups, error: StoreError, states: seq<Store>, storeFailed: bool,
                            orderly: bool) {
    match error
    case StoreFailure => storeFailed
    case UnsafeRecovery => Unpublishable(base, groups, states) && (orderly ==> Nameless(groups))
  }

  ghost predicate Nameless(groups: Groups) {
    exists k <- groups :: |k.asset| == 0
  }

  lemma StillUnpublishable(base: Path, groups: Groups, before: seq<Store>, during: seq<Store>, after: seq<Store>)
    requires Follows(before, during) && Follows(during, after) && Unpublishable(base, groups, Since(during, after))
    ensures Unpublishable(base, groups, Since(before, after)) && Follows(before, after)
  {
    hide ReadManifest, Nameless;
    if !Nameless(groups) {
      var states, more := after[|during| - 1..], after[|before| - 1..];
      var k, i :| k in groups && 0 <= i < |states| && ReadManifest(states[i], GroupOf(base, k)).Err?;
      assert states[i] == more[i + |during| - |before|];
    }
  }

  lemma RefusedGroup(enc: Encoder, base: Path, groups: Groups, k: GroupKey, done: set<GroupKey>, start: Store,
                     before: seq<Store>, after: seq<Store>, orderly: bool)
    requires k in groups && Follows(before, after)
    requires ReadManifest(before[|before| - 1], GroupOf(base, k)).Err? || |k.asset| == 0
    requires orderly ==> Progress(enc, base, groups, done, start, before[|before| - 1])
    ensures Unpublishable(base, groups, Since(before, after)) && (orderly ==> Nameless(groups))
  {
    hide ReadManifest;
    assert Since(before, after)[0] == before[|before| - 1];
    if orderly && |k.asset| > 0 {
      ReadableInProgress(enc, base, groups, k, done, start, before[|before| - 1]);
    }
  }

  lemma ReadableInProgress(enc: Encoder, base: Path, groups: Groups, k: GroupKey, done: set<GroupKey>, start: Store,
                           s: Store)
    requires k in groups && |k.asset| > 0 && Progress(enc, base, groups, done, start, s)
    ensures ReadManifest(s, GroupOf(base, k)).Ok?
  {
    hide ReadManifest;
    assert PartitionShows(enc, GroupOf(base, k), groups[k], k in done, start, s);
  }

  /** A dataset partitioned by receive time, the only kind recovery replaces. */
  predicate ReplaceableGroup(g: Group) {
    g.dataset in {"book_events", "trade_events", "ingest_events"} && |g.hour| > 0
  }

  /** The batch's partitions are consistent and their assets cannot be mistaken for one another. */
  ghost predicate Orderly(enc: Encoder, base: Path, groups: Groups, store: Store) {
    && Unambiguous(groups.Keys)
    && forall k <- groups | |k.asset| > 0 :: Consistent(enc, GroupOf(base, k), store)
  }

  /** No asset's key is the legacy double encoding of another's. */
  predicate Unambiguous(keys: set<GroupKey>) {
    forall j <- keys, k <- keys | j.asset != k.asset :: j.asset != Reencode(k.asset)
  }

  /**
   A partition is consistent; once settled it shows exactly its new rows, in one file, and until then
   what it showed at the start.
   */
  ghost predicate PartitionShows(enc: Encoder, g: Group, rows: seq<PersistedRecord>, settled: bool, start: Store,
                                 store: Store) {
    && Consistent(enc, g, store)
    && if settled then exists p :: View(store, g) == map[p := rows]
       else ReadManifest(start, g).Ok? && View(store, g) == View(start, g)
  }

  /** Settled partitions show their new rows, the others still show their old ones. */
  ghost predicate Progress(enc: Encoder, base: Path, groups: Groups, done: set<GroupKey>, start: Store, store: Store) {
    forall k <- groups | |k.asset| > 0 :: PartitionShows(enc, GroupOf(base, k), groups[k], k in done, start, store)
  }

  function Restricted(groups: Groups, keys: set<GroupKey>): Groups {
    map k | k in groups && k in keys :: groups[k]
  }

  /** How many records the groups of these keys hold. */
  ghost function Rows(groups: Groups, keys: set<GroupKey>): nat {
    |Bag(Restricted(groups, keys))|
  }

  lemma OneGroupsRows(groups: Groups, keys: set<GroupKey>, k: GroupKey)
    requires k in groups && k in keys
    ensures Rows(groups, keys) == |groups[k]| + Rows(groups, keys - {k})
  {
    BagCount(Restricted(groups, keys), k);
    assert Restricted(groups, keys) - {k} == Restricted(groups, keys - {k});
  }

  lemma NoRows(groups: Groups)
    ensures Rows(groups, {}) == 0
  {
    assert Restricted(groups, {}) == map[];
  }

  /** Together, the groups of a batch hold as many records as the batch. */
  lemma AllRows(records: seq<PersistedRecord>)
    ensures Rows(GroupsOf(records), GroupsOf(records).Keys) == |records|
  {
    var groups := GroupsOf(records);
    assert Restricted(groups, groups.Keys) == groups;
    GroupingConserves(records, KeyFor);
  }

  lemma RecoverableGroups(records: seq<PersistedRecord>, c: Coverage)
    requires forall x <- records :: Recoverable(x, c)
    ensures forall k <- GroupsOf(records) ::
            k.dataset in {"book_events", "trade_events", "ingest_events"} && |GroupsOf(records)[k]| > 0
  {
    GroupedMembers(records, KeyFor);
    forall k <- GroupsOf(records) ensures k.dataset in {"book_events", "trade_events", "ingest_events"} {
      var x := GroupsOf(records)[k][0];
      assert x in GroupsOf(records)[k];
      assert x in records && KeyFor(x) == k;
    }
  }

  /**
   In each of these partitions exactly one object is authoritative, and apart from it no more objects
   are left than cleanups failed.
   */
  ghost predicate Tidy(base: Path, keys: set<GroupKey>, store: Store, failures: nat) {
    forall k <- keys | |k.asset| > 0 :: |Objects(store, GroupOf(base, k))| <= 1 + failures
  }

  /** How far the batch is, if its partitions were orderly at the start. */
  ghost predicate Standing(enc: Encoder, base: Path, groups: Groups, done: set<GroupKey>, start: Store, store: Store,
                           failures: nat, orderly: bool) {
    orderly ==>
      Unambiguous(groups.Keys) && Progress(enc, base, groups, done, start, store) && Tidy(base, done, store, failures)
  }

  lemma StandingAtStart(enc: Encoder, base: Path, groups: Groups, start: Store, orderly: bool)
    requires orderly ==> Unambiguous(groups.Keys) && Progress(enc, base, groups, {}, start, start)
    ensures Standing(enc, base, groups, {}, start, start, 0, orderly)
  {
    hide Progress;
    NothingUntidy(base, start);
  }

  lemma StandingMeans(enc: Encoder, base: Path, groups: Groups, done: set<GroupKey>, start: Store, store: Store,
                      failures: nat, orderly: bool)
    requires Standing(enc, base, groups, done, start, store, failures, orderly)
    ensures orderly ==> Progress(enc, base, groups, done, start, store) && Tidy(base, done, store, failures)
  {
    hide Progress, Tidy;
  }

  lemma NothingUntidy(base: Path, store: Store)
    ensures Tidy(base, {}, store, 0)
  {
  }

  lemma OwnGroupTidy(enc: Encoder, q: Request, before: Store, after: Store, failures: nat)
    requires ValidRequest(q) && GroupOutcome(enc, q, before, after, true) && Consistent(enc, q.group, before)
    requires FailuresCounted(enc, q, before, after, failures)
    ensures |Objects(after, q.group)| <= 1 + failures
  {
    hide Consistent, FinalManifest, Objects, Leftover, ValidGroup, Step, RecoveredPath;
    var h: seq<Store> :| IsRun(enc, q, h) && h[0] == before && h[|h| - 1] == after && |h| > 4;
    FinishedRunLeaves(enc, q, h);
    hide IsRun;
    AtMostOneMore(Objects(after, q.group), RecoveredPath(enc, q),
                  Leftover(FinalManifest(enc, q, before).superseded, after));
  }

  lemma AtMostOneMore(objects: set<Path>, p: Path, left: set<Path>)
    requires objects <= {p} + left
    ensures |objects| <= 1 + |left|
  {
    SubsetIsSmaller(objects, {p} + left);
  }

  lemma SameObjects(g: Group, a: Store, b: Store)
    requires AgreeOn(g, a, b)
    ensures Objects(a, g) == Objects(b, g)
  {
  }

  /** A finished group is tidy up to its own failures, and the others stay as tidy as they were. */
  lemma TidyAfterGroup(enc: Encoder, base: Path, groups: Groups, done: set<GroupKey>, start: Store,
                       before: Store, after: Store, k: GroupKey, q: Request, failures: nat, more: nat)
    requires CollisionFree(enc) && k in groups && k !in done && done <= groups.Keys
    requires q.group == GroupOf(base, k) && q.rows == groups[k] && GroupOutcome(enc, q, before, after, true)
    requires FailuresCounted(enc, q, before, after, more) && Tidy(base, done, before, failures)
    requires Unambiguous(groups.Keys) && (forall j <- groups :: ReplaceableGroup(GroupOf(base, j)))
    requires Progress(enc, base, groups, done, start, before)
    ensures Tidy(base, done + {k}, after, failures + more)
  {
    hide GroupOutcome, FailuresCounted, Unambiguous, CollisionFree, Consistent, Objects, View;
    forall j <- done + {k} | |j.asset| > 0 ensures |Objects(after, GroupOf(base, j))| <= 1 + failures + more {
      assert PartitionShows(enc, GroupOf(base, j), groups[j], j in done, start, before);
      if j == k {
        assert ValidRequest(q) by {
          CountedMeansValid(enc, q, before, after, more);
        }
        OwnGroupTidy(enc, q, before, after, more);
      } else {
        assert |k.asset| > 0 ==> PartitionShows(enc, GroupOf(base, k), groups[k], k in done, start, before);
        OtherGroupAgrees(enc, base, groups.Keys, k, j, before, after, q, true);
        SameObjects(GroupOf(base, j), before, after);
      }
    }
  }

  lemma CountedMeansValid(enc: Encoder, q: Request, before: Store, after: Store, failures: nat)
    requires FailuresCounted(enc, q, before, after, failures)
    ensures ValidRequest(q)
  {
  }

  /** One group's call touches nothing of another partition of the batch. */
  lemma OtherGroupAgrees(enc: Encoder, base: Path, keys: set<GroupKey>, k: GroupKey, j: GroupKey,
                         before: Store, after: Store, q: Request, ok: bool)
    requires k in keys && j in keys && j != k && |j.asset| > 0 && Unambiguous(keys)
    requires ReplaceableGroup(GroupOf(base, k)) && ReplaceableGroup(GroupOf(base, j))
    requires q.group == GroupOf(base, k) && GroupOutcome(enc, q, before, after, ok)
    requires |k.asset| > 0 ==> Consistent(enc, GroupOf(base, k), before)
    ensures AgreeOn(GroupOf(base, j), before, after)
  {
    var other := GroupOf(base, j);
    if ValidRequest(q) {
      var h: seq<Store> :| IsRun(enc, q, h) && h[0] == before && h[|h| - 1] == after;
      DistinctPartitionsAreSeparate(GroupOf(base, k), other);
      SeparatePartitionUndisturbed(enc, q, h, other);
    } else {
      NamelessObjectElsewhere(enc, base, q, other);
    }
  }

  /** One group's call leaves every other partition of the batch as it was. */
  lemma OtherGroupUndisturbed(enc: Encoder, base: Path, keys: set<GroupKey>, k: GroupKey, j: GroupKey,
                              before: Store, after: Store, q: Request, ok: bool,
                              rows: seq<PersistedRecord>, settled: bool, start: Store)
    requires k in keys && j in keys && j != k && |j.asset| > 0 && Unambiguous(keys)
    requires ReplaceableGroup(GroupOf(base, k)) && ReplaceableGroup(GroupOf(base, j))
    requires q.group == GroupOf(base, k) && GroupOutcome(enc, q, before, after, ok)
    requires |k.asset| > 0 ==> Consistent(enc, GroupOf(base, k), before)
    requires PartitionShows(enc, GroupOf(base, j), rows, settled, start, before)
    ensures PartitionShows(enc, GroupOf(base, j), rows, settled, start, after)
  {
    OtherGroupAgrees(enc, base, keys, k, j, before, after, q, ok);
    AgreementPreserves(enc, GroupOf(base, j), before, after);
  }

  /** One group's call settles its own partition, or fails and leaves what it showed. */
  lemma OwnGroupOutcome(enc: Encoder, q: Request, before: Store, after: Store, ok: bool, start: Store)
    returns (settled: bool)
    requires CollisionFree(enc) && ValidRequest(q) && GroupOutcome(enc, q, before, after, ok)
    requires PartitionShows(enc, q.group, q.rows, false, start, before)
    ensures ok ==> settled
    ensures PartitionShows(enc, q.group, q.rows, settled, start, after)
  {
    var h: seq<Store> :| IsRun(enc, q, h) && h[0] == before && h[|h| - 1] == after && (ok ==> |h| > 4);
    RunOutcome(enc, q, h);
    settled := |h| >= PUBLISHED;
  }

  /** What one group's call does to every partition of the batch. */
  lemma OneMoreGroup(enc: Encoder, base: Path, groups: Groups, done: set<GroupKey>, start: Store,
                     before: Store, after: Store, k: GroupKey, q: Request, ok: bool) returns (settled: set<GroupKey>)
    requires CollisionFree(enc) && k in groups && k !in done
    requires q.group == GroupOf(base, k) && q.rows == groups[k] && GroupOutcome(enc, q, before, after, ok)
    requires Unambiguous(groups.Keys) && (forall j <- groups :: ReplaceableGroup(GroupOf(base, j)))
    requires Progress(enc, base, groups, done, start, before)
    ensures (settled == done || settled == done + {k}) && (ok ==> settled == done + {k})
    ensures Progress(enc, base, groups, settled, start, after)
  {
    settled := done;
    if ValidRequest(q) {
      var own := OwnGroupOutcome(enc, q, before, after, ok, start);
      settled := if own then done + {k} else done;
    }
    forall j <- groups | j != k && |j.asset| > 0
      ensures PartitionShows(enc, GroupOf(base, j), groups[j], j in done, start, after)
    {
      OtherGroupUndisturbed(enc, base, groups.Keys, k, j, before, after, q, ok, groups[j], j in done, start);
    }
  }

  lemma NoProgressYet(enc: Encoder, base: Path, groups: Groups, start: Store)
    requires Orderly(enc, base, groups, start)
    ensures Progress(enc, base, groups, {}, start, start)
  {
  }

  /** An object staged for an empty asset belongs to no partition. */
  lemma NamelessObjectElsewhere(enc: Encoder, base: Path, q: Request, g: Group)
    requires |q.rows| > 0 && |q.group.asset| == 0 && q.group.base == g.base
    ensures StagedPath(enc, q) != ManifestPath(g) && !GroupObject(g, StagedPath(enc, q))
  {
    var p := StagedPath(enc, q);
    SplitOfGeneratedName(q.group.asset, q.rows[0].PartitionTimestampUs(), enc.hash(q.rows), enc.size(q.rows));
    assert p[|g.base|] == OBJECT_PREFIX && ManifestPath(g)[|g.base|] == MANIFEST_PREFIX;
  }

  /** From `before` to `after`, the history grew by a run of the request, complete or cut. */
  ghost predicate Ran(enc: Encoder, q: Request, before: seq<Store>, after: seq<Store>) {
    |before| > 0 && before <= after && IsRun(enc, q, after[|before| - 1..])
  }

  /**
   What one call did: a run of the protocol, finished if it succeeded; or, for an empty asset, which no
   manifest can name, at most a staged object and a refusal.
   */
  ghost predicate GroupOutcome(enc: Encoder, q: Request, before: Store, after: Store, ok: bool) {
    if ValidRequest(q) then exists h: seq<Store> ::
      IsRun(enc, q, h) && h[0] == before && h[|h| - 1] == after && (ok ==> |h| > 4)
    else !ok && |q.rows| > 0 && |q.group.asset| == 0
         && (after == before || after == before[StagedPath(enc, q) := Parquet(q.rows)])
  }

  /** The reported failures account for every superseded object that is still there. */
  ghost predicate FailuresCounted(enc: Encoder, q: Request, before: Store, after: Store, failures: nat) {
    ValidRequest(q) && |Leftover(FinalManifest(enc, q, before).superseded, after)| <= failures
  }

  lemma NothingLeftOver(superseded: set<Path>, s: Store)
    requires superseded == {}
    ensures |Leftover(superseded, s)| == 0
  {
  }

  lemma SubsetIsSmaller<T>(a: set<T>, b: set<T>)
    requires a <= b
    ensures |a| <= |b|
  {
    if a != {} {
      var x :| x in a;
      SubsetIsSmaller(a - {x}, b - {x});
    }
  }

  /** After one more delete, at most the failed ones are left. */
  lemma OneMoreDelete(stale: set<Path>, todo: set<Path>, p: Path, before: Store, after: Store, failed: bool)
    requires p in todo && todo <= stale && after.Keys <= before.Keys && (!failed ==> p !in after)
    ensures |Leftover(stale - (todo - {p}), after)| <= |Leftover(stale - todo, before)| + if failed then 1 else 0
  {
    var left, was := Leftover(stale - (todo - {p}), after), Leftover(stale - todo, before);
    assert left <= if failed then was + {p} else was;
    SubsetIsSmaller(left, if failed then was + {p} else was);
  }

  lemma CleanRunWithoutFailures(enc: Encoder, q: Request, before: seq<Store>, after: seq<Store>)
    requires Ran(enc, q, before, after) && |after| >= |before| + 4 && ValidRequest(q)
    requires |Leftover(FinalManifest(enc, q, before[|before| - 1]).superseded, after[|after| - 1])| == 0
    ensures exists h :: CompletedCleanly(enc, q, h) && h[0] == before[|before| - 1] && h[|h| - 1] == after[|after| - 1]
  {
    hide IsRun, FinalManifest;
    var h := after[|before| - 1..];
    forall p <- FinalManifest(enc, q, h[0]).superseded ensures p !in h[|h| - 1] {
      assert p !in Leftover(FinalManifest(enc, q, h[0]).superseded, h[|h| - 1]);
    }
    assert CompletedCleanly(enc, q, h);
  }

  lemma RunIsOutcome(enc: Encoder, q: Request, before: seq<Store>, after: seq<Store>, ok: bool)
    requires Ran(enc, q, before, after) && (ok ==> |after| >= |before| + 4)
    ensures GroupOutcome(enc, q, before[|before| - 1], after[|after| - 1], ok)
  {
    var h := after[|before| - 1..];
    assert IsRun(enc, q, h) && h[0] == before[|before| - 1] && h[|h| - 1] == after[|after| - 1];
  }

  lemma RanStep(enc: Encoder, q: Request, before: seq<Store>, during: seq<Store>, after: seq<Store>)
    requires |before| > 0 && ValidRequest(q) && (during == before || Ran(enc, q, before, during))
    requires after == during || (|after| == |during| + 1 && during <= after
             && Step(enc, q, before[|before| - 1], |during| - |before|, during[|during| - 1], after[|during|]))
    ensures Ran(enc, q, before, after)
  {
    var n := |before| - 1;
    if after != during {
      var h, h' := during[n..], after[n..];
      assert h'[..|h'| - 1] == h;
    }
  }

  lemma NothingAddedYet(enc: Encoder, base: Path, objects: Store, groups: Groups)
    ensures OnlyAdds(enc, base, objects, objects, groups)
  {
  }

  /** Storing one more group. */
  lemma PutStep(enc: Encoder, base: Path, start: Store, before: Store, k: GroupKey, groups: Groups, done: Groups)
    requires CollisionFree(enc) && k in groups && |groups[k]| > 0 && k !in done
    requires OnlyAdds(enc, base, start, before, groups) && Holds(enc, base, before, done)
    ensures var after := before[ObjectPath(enc, base, k, groups[k]) := Parquet(groups[k])];
            OnlyAdds(enc, base, start, after, groups) && Holds(enc, base, after, done[k := groups[k]])
  {
    PutKeepsHolding(enc, base, before, k, groups[k], done);
  }

  lemma PutKeepsHolding(enc: Encoder, base: Path, before: Store, k: GroupKey, rows: seq<PersistedRecord>, done: Groups)
    requires CollisionFree(enc) && |rows| > 0 && k !in done && Holds(enc, base, before, done)
    ensures Holds(enc, base, before[ObjectPath(enc, base, k, rows) := Parquet(rows)], done)
  {
    forall j <- done | |done[j]| > 0 ensures ObjectPath(enc, base, j, done[j]) != ObjectPath(enc, base, k, rows) {
      if ObjectPath(enc, base, j, done[j]) == ObjectPath(enc, base, k, rows) {
        ObjectPathInjective(enc, base, j, done[j], k, rows);
      }
    }
  }
}
