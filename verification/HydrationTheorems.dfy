/** What recovery guarantees: the fast-forward is exact, and checkpoints plus the tail equal the whole log. */
module HydrationTheorems {
  import opened Types
  import opened OrderBook
  import opened EventOrder
  import opened Replay
  import opened ReplayTheorems
  import opened LiveState
  import opened LiveReplay
  import opened Hydration

  // ---------------------------------------------------------------------------------------------
  // Readiness
  // ---------------------------------------------------------------------------------------------

  lemma {:induction false} RunKeepsReadiness(s: State, records: seq<PersistedRecord>)
    ensures RunRecords(s, records).metadata.hydrated == s.metadata.hydrated
  {
    if |records| > 0 {
      hide ApplyRecord;
      RunKeepsReadiness(s, records[..|records| - 1]);
      RecordKeepsReadiness(RunRecords(s, records[..|records| - 1]), records[|records| - 1]);
    }
  }

  lemma RecordKeepsReadiness(s: State, r: PersistedRecord)
    ensures ApplyRecord(s, r).metadata.hydrated == s.metadata.hydrated
  {
    hide MaterializedAsset, DeltaAsset, CheckpointAsset, Extended, NewGroup, Flushes, Seeds, AssetOrNew;
  }

  lemma {:induction false} SeedKeepsReadiness(s: State, active: seq<Asset>, found: seq<Option<BookCheckpoint>>,
                                              configured: bool, k: nat)
    requires k <= |active| && k <= |found|
    ensures SeedAll(s, active, found, configured, k).state.metadata.hydrated == s.metadata.hydrated
  {
    if k > 0 {
      SeedKeepsReadiness(s, active, found, configured, k - 1);
    }
  }

  /**
   With a log configured, the model is ready if and only if the checkpoint inventory did not fail and the
   log was opened, read to its end, and held no undecodable record past the resume offset. In feed-only mode
   it is ready if the inventory did not fail, and otherwise as ready as it was.
   */
  lemma ReadyIff(s: State, source: CheckpointSource, wal: Wal, active: seq<Asset>)
    ensures !wal.FeedOnly? ==>
              var x := SeedFrom(s, source, wal, active);
              Recovered(s, source, wal, active).0.metadata.hydrated <==>
                && !source.ReadFailed? && wal.Log? && !wal.readFails
                && forall e <- wal.entries :: e.payload.None? ==> Skipped(e, LowestCut(active, x.cuts))
    ensures wal.FeedOnly? ==>
              (Recovered(s, source, wal, active).0.metadata.hydrated <==> !source.ReadFailed? || s.metadata.hydrated)
    ensures var r := Recovered(s, source, wal, active);
            r.1.recoverySucceeded ==> r.0.metadata.hydrated
  {
    hide SeedAll, LowestCut, Applied, RunRecords;
    var x := SeedFrom(s, source, wal, active);
    RunKeepsReadiness(x.state, Tail(x, wal, active));
    if source.Found? {
      var start := if wal.FeedOnly? then s else SetReady(s, false);
      SeedKeepsReadiness(start, active, source.checkpoints, !wal.FeedOnly?, Min(|active|, |source.checkpoints|));
    }
    if wal.Log? {
      var stop := Stop(wal.entries, LowestCut(active, x.cuts), 0);
      if stop < |wal.entries| {
        assert wal.entries[stop] in wal.entries;
      } else {
        forall e <- wal.entries ensures e.payload.None? ==> Skipped(e, LowestCut(active, x.cuts)) {
          var i :| 0 <= i < |wal.entries| && wal.entries[i] == e;
        }
      }
    }
  }

  // ---------------------------------------------------------------------------------------------
  // The fast-forward
  // ---------------------------------------------------------------------------------------------

  /** An active asset's record is applied exactly when its end lies past the asset's own cut. */
  lemma AppliedIffPastOwnCut(e: LogEntry, active: seq<Asset>, cuts: map<Asset, U64>)
    requires e.payload.Some? && e.payload.value.AssetPartition() in active
    ensures var a := e.payload.value.AssetPartition();
            Applies(e, LowestCut(active, cuts), cuts) <==> (a in cuts ==> e.end > cuts[a])
  {
  }

  function ForAssets(records: seq<PersistedRecord>, active: seq<Asset>): seq<PersistedRecord> {
    if |records| == 0 then []
    else
      var r := records[|records| - 1];
      ForAssets(records[..|records| - 1], active) + if r.AssetPartition() in active then [r] else []
  }

  lemma ForAssetsAfterPush(records: seq<PersistedRecord>, r: PersistedRecord, active: seq<Asset>)
    ensures ForAssets(records + [r], active) == ForAssets(records, active)
            + if r.AssetPartition() in active then [r] else []
  {
    assert (records + [r])[..|records|] == records;
  }

  /**
   Starting at the lowest cut instead of the beginning neither loses nor repeats a record of any active
   asset: the same records are applied, in the same order.
   */
  lemma {:induction false} FastForwardExact(entries: seq<LogEntry>, active: seq<Asset>, cuts: map<Asset, U64>)
    ensures ForAssets(Applied(entries, LowestCut(active, cuts), cuts), active)
            == ForAssets(Applied(entries, None, cuts), active)
  {
    hide LowestCut;
    var from := LowestCut(active, cuts);
    if |entries| > 0 {
      var n := |entries| - 1;
      var e := entries[n];
      FastForwardExact(entries[..n], active, cuts);
      if e.payload.Some? {
        ForAssetsAfterPush(Applied(entries[..n], from, cuts), e.payload.value, active);
        ForAssetsAfterPush(Applied(entries[..n], None, cuts), e.payload.value, active);
        assert Applies(e, from, cuts) ==> Applies(e, None, cuts);
      }
      NothingMore(Applied(entries[..n], from, cuts));
      NothingMore(Applied(entries[..n], None, cuts));
    }
  }

  lemma NothingMore<T>(s: seq<T>)
    ensures s + [] == s
  {
  }

  // ---------------------------------------------------------------------------------------------
  // The applied records as a part of the log
  // ---------------------------------------------------------------------------------------------

  predicate Decodable(entries: seq<LogEntry>) {
    forall e <- entries :: e.payload.Some?
  }

  /** The whole log. */
  function Records(entries: seq<LogEntry>): seq<PersistedRecord>
    requires Decodable(entries)
  {
    seq(|entries|, i requires 0 <= i < |entries| => assert entries[i] in entries; entries[i].payload.value)
  }

  /** Where in the log the `i`-th applied record comes from. */
  function Origin(entries: seq<LogEntry>, from: Option<U64>, cuts: map<Asset, U64>, i: nat): (p: nat)
    requires i < |Applied(entries, from, cuts)|
    ensures p < |entries| && entries[p].payload == Some(Applied(entries, from, cuts)[i])
    decreases |entries|
  {
    var n := |entries| - 1;
    if i == |Applied(entries[..n], from, cuts)| then n else Origin(entries[..n], from, cuts, i)
  }

  lemma {:induction false} OriginIncreases(entries: seq<LogEntry>, from: Option<U64>, cuts: map<Asset, U64>,
                                           i: nat, j: nat)
    requires i < j < |Applied(entries, from, cuts)|
    ensures Origin(entries, from, cuts, i) < Origin(entries, from, cuts, j)
    decreases |entries|
  {
    var n := |entries| - 1;
    if j < |Applied(entries[..n], from, cuts)| {
      OriginIncreases(entries[..n], from, cuts, i, j);
    }
  }

  /** What was applied before a record is what the log before its origin gives. */
  lemma {:induction false} AppliedBeforeOrigin(entries: seq<LogEntry>, from: Option<U64>, cuts: map<Asset, U64>, i: nat)
    requires i < |Applied(entries, from, cuts)|
    ensures Applied(entries, from, cuts)[..i] == Applied(entries[..Origin(entries, from, cuts, i)], from, cuts)
    decreases |entries|
  {
    var n := |entries| - 1;
    if i < |Applied(entries[..n], from, cuts)| {
      AppliedBeforeOrigin(entries[..n], from, cuts, i);
      assert entries[..n][..Origin(entries, from, cuts, i)] == entries[..Origin(entries, from, cuts, i)];
    }
  }

  /** Leaving records out keeps an asset's snapshot groups contiguous. */
  lemma AppliedWellGrouped(entries: seq<LogEntry>, from: Option<U64>, cuts: map<Asset, U64>, a: Asset)
    requires Decodable(entries) && WellGrouped(Records(entries), a)
    ensures WellGrouped(Applied(entries, from, cuts), a)
  {
    hide Applied, Origin;
    var records, all := Applied(entries, from, cuts), Records(entries);
    forall i, k, j | 0 <= i <= k <= j < |records| && SnapshotOf(records[i], a) && SnapshotOf(records[j], a)
                     && records[i].event.provenance.recvTimestampUs == records[j].event.provenance.recvTimestampUs
      ensures SameGroup(records[i], records[k], a)
    {
      var p, q, r := Origin(entries, from, cuts, i), Origin(entries, from, cuts, k), Origin(entries, from, cuts, j);
      if i < k {
        OriginIncreases(entries, from, cuts, i, k);
      }
      if k < j {
        OriginIncreases(entries, from, cuts, k, j);
      }
      assert all[p] == records[i] && all[q] == records[k] && all[r] == records[j];
    }
  }

  predicate EventEntry(e: LogEntry, a: Asset) {
    e.payload.Some? && e.payload.value.BookRecord? && e.payload.value.event.asset == a
  }

  /** The asset's event in an entry, if it is one. */
  function EventIn(e: LogEntry, a: Asset): seq<BookEvent> {
    if EventEntry(e, a) then [e.payload.value.event] else []
  }

  lemma LastApplied(entries: seq<LogEntry>, from: Option<U64>, cuts: map<Asset, U64>, a: Asset)
    requires |entries| > 0
    ensures var n := |entries| - 1;
            EventsOf(Applied(entries, from, cuts), a)
            == EventsOf(Applied(entries[..n], from, cuts), a)
               + if Applies(entries[n], from, cuts) then EventIn(entries[n], a) else []
  {
    hide EventsOf;
    var n := |entries| - 1;
    var init := Applied(entries[..n], from, cuts);
    if Applies(entries[n], from, cuts) {
      EventsAfterPush(init, entries[n].payload.value, a);
    } else {
      NothingMore(init);
      NothingMore(EventsOf(init, a));
    }
  }

  lemma LastRecorded(entries: seq<LogEntry>, k: nat, a: Asset)
    requires Decodable(entries) && k < |entries|
    ensures var n := |entries| - 1;
            EventsOf(Records(entries[k..]), a) == EventsOf(Records(entries[..n][k..]), a) + EventIn(entries[n], a)
  {
    hide EventsOf;
    var n := |entries| - 1;
    assert entries[n] in entries;
    assert Records(entries[k..]) == Records(entries[..n][k..]) + [entries[n].payload.value];
    EventsAfterPush(Records(entries[..n][k..]), entries[n].payload.value, a);
  }

  /** If exactly the asset's events from position `k` on apply, they are the events of the log's rest. */
  lemma {:induction false} AppliedEvents(entries: seq<LogEntry>, from: Option<U64>, cuts: map<Asset, U64>,
                                         a: Asset, k: nat)
    requires Decodable(entries) && k <= |entries|
    requires forall i | 0 <= i < |entries| && EventEntry(entries[i], a) :: Applies(entries[i], from, cuts) <==> i >= k
    ensures EventsOf(Applied(entries, from, cuts), a) == EventsOf(Records(entries[k..]), a)
  {
    if |entries| == 0 {
      assert Records(entries[k..]) == [];
    } else {
      hide Applies, Applied, Records, EventsOf;
      var n := |entries| - 1;
      AppliedEvents(entries[..n], from, cuts, a, if k > n then n else k);
      LastApplied(entries, from, cuts, a);
      NothingMore(EventsOf(Applied(entries[..n], from, cuts), a));
      if k > n {
        NoRecords(entries[..n][n..], a);
        NoRecords(entries[k..], a);
      } else {
        LastRecorded(entries, k, a);
      }
    }
  }

  lemma NoRecords(entries: seq<LogEntry>, a: Asset)
    requires |entries| == 0
    ensures EventsOf(Records(entries), a) == []
  {
  }

  /** Checkpoints that seed nothing in the log seed nothing in what is applied, if all the asset's events are. */
  lemma AppliedInert(entries: seq<LogEntry>, from: Option<U64>, cuts: map<Asset, U64>, a: Asset, seeded: bool)
    requires Decodable(entries) && CheckpointsInert(Records(entries), a, seeded)
    requires forall i | 0 <= i < |entries| && EventEntry(entries[i], a) :: Applies(entries[i], from, cuts)
    ensures CheckpointsInert(Applied(entries, from, cuts), a, seeded)
  {
    hide Applies, Applied, Origin, EventsOf;
    var records := Applied(entries, from, cuts);
    forall j | 0 <= j < |records| && CheckpointOf(records[j], a)
      ensures seeded || StartsWithSnapshot(EventsOf(records[..j], a))
    {
      var p := Origin(entries, from, cuts, j);
      AppliedBeforeOrigin(entries, from, cuts, j);
      AppliedEvents(entries[..p], from, cuts, a, 0);
      assert entries[..p][0..] == entries[..p];
      assert Records(entries)[..p] == Records(entries[..p]) && Records(entries)[p] == records[j];
    }
  }

  // ---------------------------------------------------------------------------------------------
  // Checkpoints plus the tail equal the whole log
  // ---------------------------------------------------------------------------------------------

  ghost predicate Increasing(entries: seq<LogEntry>) {
    forall i, j | 0 <= i < j < |entries| :: entries[i].end < entries[j].end
  }

  /** The first entry that ends past the cut. */
  function FirstPast(entries: seq<LogEntry>, cut: U64): (k: nat)
    ensures k <= |entries|
    ensures forall i | 0 <= i < k :: entries[i].end <= cut
    ensures k < |entries| ==> entries[k].end > cut
    decreases |entries|
  {
    if |entries| == 0 then 0
    else
      var k := FirstPast(entries[..|entries| - 1], cut);
      if k < |entries| - 1 || entries[|entries| - 1].end > cut then k else |entries|
  }

  /** The checkpoint's levels are the fold of the asset's events up to its cut, and the cut splits no snapshot run. */
  ghost predicate ExactCheckpoint(c: BookCheckpoint, a: Asset, entries: seq<LogEntry>)
    requires Decodable(entries)
  {
    c.walOffset.Some? ==>
      var k := FirstPast(entries, c.walOffset.value);
      var before, after := EventsOf(Records(entries)[..k], a), EventsOf(Records(entries)[k..], a);
      var folded := Fold(EMPTY_BOOK, before, RecvTime);
      var restored := ApplySnapshot(c.bids, c.asks, 0, c.checkpointTimestampUs);
      && folded.Some? && restored.Ok? && SameLevels(restored.value, folded.value)
      && (|before| > 0 && |after| > 0 ==> !SameRun(before[|before| - 1], after[0], RecvTime))
  }

  /** Each slot holds a checkpoint of its own asset. */
  predicate Slotted(active: seq<Asset>, found: seq<Option<BookCheckpoint>>) {
    |found| == |active| && forall i | 0 <= i < |found| && found[i].Some? :: found[i].value.asset == active[i]
  }

  /** An asset either keeps its state or holds the checkpoint whose position is its cut. */
  lemma {:induction false} SeedMeaning(s: State, active: seq<Asset>, found: seq<Option<BookCheckpoint>>, k: nat,
                                       a: Asset)
    returns (i: nat, prev: AssetState)
    requires Slotted(active, found) && k <= |active|
    ensures var x := SeedAll(s, active, found, true, k);
            && x.state.pending == s.pending
            && (a !in x.cuts ==> AssetOrNew(x.state.assets, a) == AssetOrNew(s.assets, a))
            && (a in x.cuts ==>
                  && i < k && active[i] == a && found[i].Some? && found[i].value.walOffset == Some(x.cuts[a])
                  && AssetOrNew(x.state.assets, a) == CheckpointAsset(prev, found[i].value))
  {
    hide CheckpointAsset;
    i, prev := 0, NEW_ASSET;
    if k > 0 {
      i, prev := SeedMeaning(s, active, found, k - 1, a);
      if Usable(found[k - 1], true) && active[k - 1] == a {
        i, prev := k - 1, AssetOrNew(SeedAll(s, active, found, true, k - 1).state.assets, a);
      }
    }
  }

  lemma SeededByCheckpoint(prev: AssetState, c: BookCheckpoint)
    requires ApplySnapshot(c.bids, c.asks, 0, c.checkpointTimestampUs).Ok?
    ensures CheckpointAsset(prev, c).initializedFromSnapshot
    ensures CheckpointAsset(prev, c).book == ApplySnapshot(c.bids, c.asks, 0, c.checkpointTimestampUs).value
  {
  }

  /** What the tail makes of an asset without a cut. */
  lemma TailWithoutCut(x: State, entries: seq<LogEntry>, active: seq<Asset>, cuts: map<Asset, U64>, a: Asset)
    requires x.pending.None? && a in active && a !in cuts && AssetOrNew(x.assets, a) == NEW_ASSET
    requires Decodable(entries) && WellGrouped(Records(entries), a) && CheckpointsInert(Records(entries), a, false)
    requires Fold(EMPTY_BOOK, EventsOf(Records(entries), a), RecvTime).Some?
    ensures var applied := Applied(entries, LowestCut(active, cuts), cuts);
            Some(LiveBook(RunRecords(x, applied), a)) == Fold(EMPTY_BOOK, EventsOf(Records(entries), a), RecvTime)
  {
    hide Fold, WellGrouped, LiveBook, EventsOf, LowestCut, Applied;
    var from := LowestCut(active, cuts);
    assert entries[0..] == entries;
    AppliedEvents(entries, from, cuts, a, 0);
    AppliedWellGrouped(entries, from, cuts, a);
    AppliedInert(entries, from, cuts, a, false);
    LiveIsFold(x, Applied(entries, from, cuts), a);
  }

  /** What the tail makes of an asset seeded from an exact checkpoint. */
  lemma TailAfterCut(x: State, entries: seq<LogEntry>, active: seq<Asset>, cuts: map<Asset, U64>, a: Asset,
                     c: BookCheckpoint)
    requires x.pending.None? && a in active && a in cuts && c.walOffset == Some(cuts[a]) && Seeded(x, a)
    requires Decodable(entries) && Increasing(entries) && WellGrouped(Records(entries), a)
    requires ExactCheckpoint(c, a, entries) && Fold(EMPTY_BOOK, EventsOf(Records(entries), a), RecvTime).Some?
    requires AssetOrNew(x.assets, a).book == ApplySnapshot(c.bids, c.asks, 0, c.checkpointTimestampUs).value
    ensures var applied := Applied(entries, LowestCut(active, cuts), cuts);
            SameLevels(LiveBook(RunRecords(x, applied), a),
                       Fold(EMPTY_BOOK, EventsOf(Records(entries), a), RecvTime).value)
  {
    hide Fold, WellGrouped, LiveBook, EventsOf, LowestCut, Applied, SameLevels, SameRun, FirstPast, ApplySnapshot;
    var from, k := LowestCut(active, cuts), FirstPast(entries, cuts[a]);
    var all, start := Records(entries), AssetOrNew(x.assets, a).book;
    var before, after := EventsOf(all[..k], a), EventsOf(all[k..], a);
    assert Records(entries[k..]) == all[k..] && all == all[..k] + all[k..];
    EventsOfConcat(all[..k], all[k..], a);
    FoldConcat(EMPTY_BOOK, before, after, RecvTime);
    FoldSameLevels(start, Fold(EMPTY_BOOK, before, RecvTime).value, after, RecvTime);
    AppliedEvents(entries, from, cuts, a, k);
    AppliedWellGrouped(entries, from, cuts, a);
    LiveIsFold(x, Applied(entries, from, cuts), a);
  }

  /**
   If every kept checkpoint of an active asset is exact, seeding and replaying the tail gives the asset the
   levels that replaying the whole log into the empty model gives.
   */
  lemma RecoveryEqualsFullReplay(s: State, active: seq<Asset>, found: seq<Option<BookCheckpoint>>,
                                 origin: U64, entries: seq<LogEntry>, a: Asset)
    requires s.pending.None? && a in active && AssetOrNew(s.assets, a) == NEW_ASSET && Slotted(active, found)
    requires Decodable(entries) && Increasing(entries)
    requires WellGrouped(Records(entries), a) && CheckpointsInert(Records(entries), a, false)
    requires Fold(EMPTY_BOOK, EventsOf(Records(entries), a), RecvTime).Some?
    requires forall i | 0 <= i < |found| && active[i] == a && found[i].Some? ::
             ExactCheckpoint(found[i].value, a, entries)
    ensures var recovered := Recovered(s, Found(found), Log(origin, entries, false), active);
            && recovered.1.recoverySucceeded
            && SameLevels(LiveBook(recovered.0, a), LiveBook(RunRecords(s, Records(entries)), a))
  {
    hide Fold, WellGrouped, LiveBook, EventsOf, LowestCut, Applied, SeedAll, ExactCheckpoint, CheckpointAsset,
      CheckpointsInert, RunRecords;
    var x := SeedAll(SetReady(s, false), active, found, true, |active|);
    var from := LowestCut(active, x.cuts);
    AllReplayed(entries, from);
    var i, prev := SeedMeaning(SetReady(s, false), active, found, |active|, a);
    LiveIsFold(s, Records(entries), a);
    if a in x.cuts {
      UsableCheckpoint(found[i].value, a, entries, prev);
      TailAfterCut(x.state, entries, active, x.cuts, a, found[i].value);
    } else {
      TailWithoutCut(x.state, entries, active, x.cuts, a);
    }
    ReadinessKeepsBook(RunRecords(x.state, Applied(entries, from, x.cuts)), a);
  }

  lemma AllReplayed(entries: seq<LogEntry>, from: Option<U64>)
    requires Decodable(entries)
    ensures Stop(entries, from, 0) == |entries| && entries[..|entries|] == entries
  {
    var stop := Stop(entries, from, 0);
    assert forall i | 0 <= i < |entries| :: entries[i] in entries;
  }

  lemma UsableCheckpoint(c: BookCheckpoint, a: Asset, entries: seq<LogEntry>, prev: AssetState)
    requires Decodable(entries) && ExactCheckpoint(c, a, entries) && c.walOffset.Some?
    ensures CheckpointAsset(prev, c).initializedFromSnapshot
    ensures ApplySnapshot(c.bids, c.asks, 0, c.checkpointTimestampUs).Ok?
    ensures CheckpointAsset(prev, c).book == ApplySnapshot(c.bids, c.asks, 0, c.checkpointTimestampUs).value
  {
    hide Fold, EventsOf, CheckpointAsset, ApplySnapshot;
    SeededByCheckpoint(prev, c);
  }

  // ---------------------------------------------------------------------------------------------
  // The handoff to live tailing
  // ---------------------------------------------------------------------------------------------

  /** What a reader opened at the position reads. */
  function TailFrom(entries: seq<LogEntry>, position: U64): seq<LogEntry> {
    if |entries| == 0 then []
    else
      var n := |entries| - 1;
      TailFrom(entries[..n], position) + if entries[n].end > position then [entries[n]] else []
  }

  /** The log begins at its origin. */
  ghost predicate LogFrom(origin: U64, entries: seq<LogEntry>) {
    Increasing(entries) && forall e <- entries :: origin < e.end
  }

  lemma {:induction false} NothingToRead(entries: seq<LogEntry>, position: U64)
    requires forall e <- entries :: e.end <= position
    ensures TailFrom(entries, position) == []
  {
    if |entries| > 0 {
      NothingToRead(entries[..|entries| - 1], position);
      assert entries[|entries| - 1] in entries;
    }
  }

  lemma {:induction false} AllToRead(entries: seq<LogEntry>, position: U64)
    requires forall e <- entries :: e.end > position
    ensures TailFrom(entries, position) == entries
  {
    if |entries| > 0 {
      AllToRead(entries[..|entries| - 1], position);
      assert entries[|entries| - 1] in entries;
    }
  }

  lemma {:induction false} TailFromConcat(x: seq<LogEntry>, y: seq<LogEntry>, position: U64)
    ensures TailFrom(x + y, position) == TailFrom(x, position) + TailFrom(y, position)
  {
    if |y| == 0 {
      assert x + y == x;
    } else {
      TailFromConcat(x, y[..|y| - 1], position);
      assert (x + y)[..|x + y| - 1] == x + y[..|y| - 1];
    }
  }

  /** The end of a log parts it from what is appended later. */
  lemma EndParts(origin: U64, entries: seq<LogEntry>, more: seq<LogEntry>)
    requires LogFrom(origin, entries + more)
    ensures forall e <- entries :: e.end <= Position(origin, entries, |entries|)
    ensures forall e <- more :: e.end > Position(origin, entries, |entries|)
  {
    var all, n := entries + more, |entries|;
    assert n > 0 ==> all[n - 1] == entries[n - 1];
    forall e <- entries ensures e.end <= Position(origin, entries, n) {
      var i :| 0 <= i < n && entries[i] == e;
      assert all[i] == e;
    }
    forall e <- more ensures e.end > Position(origin, entries, n) {
      var i :| 0 <= i < |more| && more[i] == e;
      assert all[n + i] == e && e in all;
    }
  }

  /** A reader opened where the log ended reads exactly what was appended since. */
  lemma ReadsTheRest(origin: U64, entries: seq<LogEntry>, more: seq<LogEntry>)
    requires LogFrom(origin, entries + more)
    ensures TailFrom(entries + more, Position(origin, entries, |entries|)) == more
  {
    hide LogFrom, TailFrom, Position;
    var position := Position(origin, entries, |entries|);
    EndParts(origin, entries, more);
    TailFromConcat(entries, more, position);
    NothingToRead(entries, position);
    AllToRead(more, position);
    assert [] + more == more;
  }

  lemma {:induction false} AppliedConcat(x: seq<LogEntry>, y: seq<LogEntry>, from: Option<U64>, cuts: map<Asset, U64>)
    ensures Applied(x + y, from, cuts) == Applied(x, from, cuts) + Applied(y, from, cuts)
  {
    if |y| == 0 {
      assert x + y == x;
    } else {
      AppliedConcat(x, y[..|y| - 1], from, cuts);
      assert (x + y)[..|x + y| - 1] == x + y[..|y| - 1];
    }
  }

  /** Everything in the appended part is applied if and only if each record of it ends past what was covered. */
  lemma {:induction false} AllAppliedIff(more: seq<LogEntry>, from: Option<U64>, cuts: map<Asset, U64>)
    requires Decodable(more)
    ensures Applied(more, from, cuts) == Records(more) <==> forall e <- more :: Applies(e, from, cuts)
    ensures |Applied(more, from, cuts)| <= |more|
  {
    hide Applies;
    if |more| > 0 {
      var n := |more| - 1;
      assert forall e <- more[..n] :: e in more;
      AllAppliedIff(more[..n], from, cuts);
      assert more[n] in more && more == more[..n] + [more[n]];
      assert Records(more) == Records(more[..n]) + [more[n].payload.value];
      if Applied(more, from, cuts) == Records(more) {
        assert |Applied(more[..n], from, cuts)| <= n && Applies(more[n], from, cuts);
        assert Applied(more, from, cuts)[..n] == Records(more)[..n];
      }
    }
  }

  lemma ReadinessCommutes(s: State, r: PersistedRecord, ready: bool)
    ensures ApplyRecord(SetReady(s, ready), r) == SetReady(ApplyRecord(s, r), ready)
  {
    hide Materialize, MaterializedAsset, DeltaAsset, CheckpointAsset, Extended, NewGroup, AssetOrNew, IsSnapshot, KeyOf;
    FlushCommutes(s, ready);
    var flushed := BeforeRecord(s, r);
    assert BeforeRecord(SetReady(s, ready), r) == SetReady(flushed, ready);
    StepCommutes(flushed, r, ready);
  }

  lemma FlushCommutes(s: State, ready: bool)
    ensures Materialize(SetReady(s, ready)) == SetReady(Materialize(s), ready)
  {
    hide MaterializedAsset;
  }

  lemma StepCommutes(s: State, r: PersistedRecord, ready: bool)
    ensures r.BookRecord? ==>
              && RecordSnapshot(SetReady(s, ready), r.event) == SetReady(RecordSnapshot(s, r.event), ready)
              && RecordDelta(SetReady(s, ready), r.event) == SetReady(RecordDelta(s, r.event), ready)
    ensures r.IngestRecord? ==> RecordIngest(SetReady(s, ready), r.ingest) == SetReady(RecordIngest(s, r.ingest), ready)
    ensures r.CheckpointRecord? ==>
              && Seeds(SetReady(s, ready), r.checkpoint) == Seeds(s, r.checkpoint)
              && HydrateCheckpoint(SetReady(s, ready), r.checkpoint)
                 == SetReady(HydrateCheckpoint(s, r.checkpoint), ready)
  {
    hide DeltaAsset, CheckpointAsset, Extended, NewGroup;
  }

  lemma {:induction false} ReadinessCommutesWithRun(s: State, records: seq<PersistedRecord>, ready: bool)
    ensures RunRecords(SetReady(s, ready), records) == SetReady(RunRecords(s, records), ready)
  {
    hide ApplyRecord, SetReady;
    if |records| > 0 {
      var n := |records| - 1;
      ReadinessCommutesWithRun(s, records[..n], ready);
      ReadinessCommutes(RunRecords(s, records[..n]), records[n], ready);
    }
  }

  /**
   Recovery of the longer log applies exactly what tailing would apply if and only if every appended record
   ends past the resume offset and past its own asset's cut.
   */
  lemma TailAppliesAllIff(entries: seq<LogEntry>, more: seq<LogEntry>, from: Option<U64>, cuts: map<Asset, U64>)
    requires Decodable(more)
    ensures Applied(entries + more, from, cuts) == Applied(entries, from, cuts) + Records(more)
            <==> forall e <- more :: Applies(e, from, cuts)
  {
    hide Applies, Applied, Records;
    AppliedConcat(entries, more, from, cuts);
    AllAppliedIff(more, from, cuts);
    var x, y, z := Applied(entries, from, cuts), Applied(more, from, cuts), Records(more);
    if x + y == x + z {
      assert (x + y)[|x|..] == y && (x + z)[|x|..] == z;
    }
  }

  /** No checkpoint covers more than the log held. */
  predicate CutsWithin(cuts: map<Asset, U64>, position: U64) {
    forall a <- cuts :: cuts[a] <= position
  }

  /** Then every record appended later is past every cut. */
  lemma AppendedApplies(origin: U64, entries: seq<LogEntry>, more: seq<LogEntry>, active: seq<Asset>,
                        cuts: map<Asset, U64>)
    requires LogFrom(origin, entries + more) && Decodable(more)
    requires CutsWithin(cuts, Position(origin, entries, |entries|))
    ensures forall e <- more :: Applies(e, LowestCut(active, cuts), cuts)
  {
    hide LogFrom, Position;
    EndParts(origin, entries, more);
  }

  /**
   Recovery followed by tailing from the position it reports is recovery of the longer log: the tail reads
   exactly the entries appended since and leads to the very same state, provided no checkpoint covers more
   than the log held.
   */
  lemma HandoffContinuesRecovery(s: State, source: CheckpointSource, origin: U64, entries: seq<LogEntry>,
                                 more: seq<LogEntry>, active: seq<Asset>)
    requires LogFrom(origin, entries + more) && Decodable(entries) && Decodable(more)
    requires CutsWithin(SeedFrom(s, source, Log(origin, entries, false), active).cuts,
                        Position(origin, entries, |entries|))
    ensures var before, after := Recovered(s, source, Log(origin, entries, false), active),
                                 Recovered(s, source, Log(origin, entries + more, false), active);
            && before.1.walEndPosition == Some(Position(origin, entries, |entries|))
            && TailFrom(entries + more, Position(origin, entries, |entries|)) == more
            && RunRecords(before.0, Records(more)) == after.0
  {
    hide Applied, LowestCut, SeedAll, RunRecords, Records, TailFrom, LogFrom, Applies, SetReady;
    var x := SeedFrom(s, source, Log(origin, entries, false), active);
    assert x == SeedFrom(s, source, Log(origin, entries + more, false), active);
    var from := LowestCut(active, x.cuts);
    AllReplayed(entries, from);
    AllReplayed(entries + more, from);
    ReadsTheRest(origin, entries, more);
    AppendedApplies(origin, entries, more, active, x.cuts);
    TailAppliesAllIff(entries, more, from, x.cuts);
    RunConcat(x.state, Applied(entries, from, x.cuts), Records(more));
    ReadinessCommutesWithRun(RunRecords(x.state, Applied(entries, from, x.cuts)), Records(more), true);
  }

  lemma ReadinessKeepsBook(s: State, a: Asset)
    ensures LiveBook(SetReady(s, true), a) == LiveBook(s, a)
  {
  }
}
