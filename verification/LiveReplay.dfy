/** The live projector and the replay engine rebuild the same book from the same stream. */
module LiveReplay {
  import opened Types
  import opened OrderBook
  import opened EventOrder
  import opened Replay
  import opened ReplayTheorems
  import opened LiveState

  /** The live state after a stream of records. */
  function RunRecords(s: State, records: seq<PersistedRecord>): State {
    if |records| == 0 then s
    else ApplyRecord(RunRecords(s, records[..|records| - 1]), records[|records| - 1])
  }

  lemma {:induction false} RunConcat(s: State, p: seq<PersistedRecord>, q: seq<PersistedRecord>)
    ensures RunRecords(s, p + q) == RunRecords(RunRecords(s, p), q)
  {
    hide ApplyRecord;
    if |q| == 0 {
      assert p + q == p;
    } else {
      RunConcat(s, p, q[..|q| - 1]);
      assert (p + q)[..|p + q| - 1] == p + q[..|q| - 1];
    }
  }

  /** The book events of one asset, in arrival order. */
  function EventsOf(records: seq<PersistedRecord>, a: Asset): seq<BookEvent> {
    if |records| == 0 then []
    else
      var r := records[|records| - 1];
      EventsOf(records[..|records| - 1], a) + if r.BookRecord? && r.event.asset == a then [r.event] else []
  }

  lemma EventsAfterPush(records: seq<PersistedRecord>, r: PersistedRecord, a: Asset)
    ensures EventsOf(records + [r], a)
            == EventsOf(records, a) + if r.BookRecord? && r.event.asset == a then [r.event] else []
  {
    assert (records + [r])[..|records|] == records;
  }

  /** The asset's live book once a pending group is applied. */
  function LiveBook(s: State, a: Asset): Book {
    AssetOrNew(Materialize(s).assets, a).book
  }

  predicate SnapshotOf(r: PersistedRecord, a: Asset) {
    IsSnapshot(r) && r.event.asset == a
  }

  predicate SameGroup(x: PersistedRecord, y: PersistedRecord, a: Asset) {
    SnapshotOf(x, a) && SnapshotOf(y, a) && KeyOf(x.event) == KeyOf(y.event)
  }

  /**
   The asset's snapshot groups are contiguous in the stream and have distinct receive times: between two
   of its snapshot events with one receive time there are only events of that same group.
   */
  ghost predicate WellGrouped(records: seq<PersistedRecord>, a: Asset) {
    forall i, k, j | 0 <= i <= k <= j < |records|
                     && SnapshotOf(records[i], a) && SnapshotOf(records[j], a)
                     && records[i].event.provenance.recvTimestampUs == records[j].event.provenance.recvTimestampUs ::
      SameGroup(records[i], records[k], a)
  }

  predicate CheckpointOf(r: PersistedRecord, a: Asset) {
    r.CheckpointRecord? && r.checkpoint.asset == a
  }

  predicate StartsWithSnapshot(events: seq<BookEvent>) {
    |events| > 0 && events[0].kind == Snapshot
  }

  /**
   Checkpoints of the asset in the stream seed nothing: either the asset has a materialized book from the
   start, or before each of them its book events have begun, with a snapshot.
   */
  predicate CheckpointsInert(records: seq<PersistedRecord>, a: Asset, seeded: bool) {
    forall k | 0 <= k < |records| && CheckpointOf(records[k], a) ::
           seeded || StartsWithSnapshot(EventsOf(records[..k], a))
  }

  predicate Seeded(s: State, a: Asset) {
    AssetOrNew(s.assets, a).initializedFromSnapshot
  }

  // ---------------------------------------------------------------------------------------------
  // The invariant: where the live state stands in the fold
  // ---------------------------------------------------------------------------------------------

  /** The pending group holds exactly these snapshot events. */
  ghost predicate GroupIs(g: PendingSnapshot, events: seq<BookEvent>) {
    && |events| > 0
    && (forall i | 0 <= i < |events| :: events[i].kind == Snapshot && KeyOf(events[i]) == g.key)
    && g.bids == LevelsOf(events, Bid) && g.asks == LevelsOf(events, Ask)
    && g.sequence == LastSequence(events) && g.lastRecvTimestampUs == g.key.recvTimestampUs
  }

  predicate PendingFor(s: State, a: Asset) {
    s.pending.Some? && s.pending.value.key.asset == a
  }

  /** The applied book is the fold of `events[..m]`, and the rest is the pending group. */
  ghost predicate TracksAt(s: State, a: Asset, start: Book, events: seq<BookEvent>, m: nat, seeded: bool) {
    && m <= |events|
    && (seeded || (m > 0 && events[0].kind == Snapshot) ==> Seeded(s, a))
    && Fold(start, events[..m], RecvTime) == Some(AssetOrNew(s.assets, a).book)
    && (0 < m < |events| ==> !SameRun(events[m - 1], events[m], RecvTime))
    && if PendingFor(s, a) then GroupIs(s.pending.value, events[m..]) else m == |events|
  }

  ghost predicate Tracks(s: State, a: Asset, start: Book, events: seq<BookEvent>, seeded: bool) {
    exists m: nat :: TracksAt(s, a, start, events, m, seeded)
  }

  lemma GroupBookIsSnapshot(g: PendingSnapshot, events: seq<BookEvent>)
    requires GroupIs(g, events)
    ensures GroupBook(g) == ApplySnapshotEvents(events, g.key.recvTimestampUs)
    ensures forall i | 0 <= i < |events| :: SnapshotAt(events[i], g.key.recvTimestampUs, RecvTime)
  {
    forall i | 0 <= i < |events| ensures SnapshotAt(events[i], g.key.recvTimestampUs, RecvTime) {
      assert KeyOf(events[i]) == g.key;
    }
  }

  /** Applying the pending group completes the fold. */
  lemma FlushCompletesFold(s: State, a: Asset, start: Book, events: seq<BookEvent>, m: nat, seeded: bool)
    requires TracksAt(s, a, start, events, m, seeded) && Fold(start, events, RecvTime).Some?
    ensures TracksAt(Materialize(s), a, start, events, |events|, seeded)
    ensures Fold(start, events, RecvTime) == Some(LiveBook(s, a))
  {
    hide Fold, ApplySnapshotEvents, GroupBook;
    assert events[..|events|] == events;
    if PendingFor(s, a) {
      var g, run := s.pending.value, events[m..];
      GroupBookIsSnapshot(g, run);
      FoldOfLastRun(start, events[..m], run, g.key.recvTimestampUs, RecvTime);
      assert events == events[..m] + run;
    }
  }

  /** Everything folded so far was accepted if the longer history is. */
  lemma FoldOfPrefix(start: Book, events: seq<BookEvent>, e: BookEvent)
    requires Fold(start, events + [e], RecvTime).Some?
    ensures Fold(start, events, RecvTime).Some?
  {
    hide Fold, ApplySnapshotEvents, ApplyDeltaEvent;
    if e.kind == Delta {
      FoldOfLastDelta(start, events, e, RecvTime);
    } else if |events| > 0 && SameRun(events[|events| - 1], e, RecvTime) {
      var init, run, ts := LastRun(events, RecvTime);
      assert SnapshotAt(run[|run| - 1], ts, RecvTime) && run[|run| - 1] == events[|events| - 1];
      FoldOfLastRun(start, init, run, ts, RecvTime);
      assert (run + [e])[0] == run[0];
      FoldOfLastRun(start, init, run + [e], ts, RecvTime);
      assert events + [e] == init + (run + [e]);
      SnapshotOfPrefix(run, e, ts);
    } else {
      FoldOfLastRun(start, events, [e], EventTs(e, RecvTime), RecvTime);
    }
  }

  lemma SnapshotOfPrefix(run: seq<BookEvent>, e: BookEvent, ts: U64)
    requires ApplySnapshotEvents(run + [e], ts).Ok?
    ensures ApplySnapshotEvents(run, ts).Ok?
  {
    LevelsOfConcat(run, [e], Bid);
    LevelsOfConcat(run, [e], Ask);
    PrefixesFitOfConcat(LevelsOf(run, Bid), LevelsOf([e], Bid));
    PrefixesFitOfConcat(LevelsOf(run, Ask), LevelsOf([e], Ask));
  }

  // ---------------------------------------------------------------------------------------------
  // One record
  // ---------------------------------------------------------------------------------------------

  lemma GroupExtended(g: PendingSnapshot, events: seq<BookEvent>, e: BookEvent)
    requires GroupIs(g, events) && e.kind == Snapshot && KeyOf(e) == g.key
    ensures GroupIs(Extended(g, e), events + [e])
  {
    LevelsAfterPush(events, e, Bid);
    LevelsAfterPush(events, e, Ask);
  }

  lemma GroupStarted(e: BookEvent)
    requires e.kind == Snapshot
    ensures GroupIs(Extended(NewGroup(e), e), [e])
  {
    assert [e][..0] == [];
  }

  /** A record that continues the pending group. */
  lemma ContinuedGroupTracks(s: State, a: Asset, start: Book, events: seq<BookEvent>, m: nat, seeded: bool,
                             e: BookEvent)
    requires TracksAt(s, a, start, events, m, seeded) && PendingFor(s, a)
    requires e.asset == a && e.kind == Snapshot && KeyOf(e) == s.pending.value.key
    ensures TracksAt(ApplyRecord(s, BookRecord(e)), a, start, events + [e], m, seeded)
  {
    hide Fold;
    GroupExtended(s.pending.value, events[m..], e);
    assert (events + [e])[m..] == events[m..] + [e] && (events + [e])[..m] == events[..m];
  }

  /** A delta on a state with nothing pending. */
  lemma DeltaTracks(s: State, a: Asset, start: Book, events: seq<BookEvent>, seeded: bool, e: BookEvent)
    requires s.pending.None? && TracksAt(s, a, start, events, |events|, seeded)
    requires e.asset == a && e.kind == Delta && Fold(start, events + [e], RecvTime).Some?
    ensures TracksAt(RecordDelta(s, e), a, start, events + [e], |events| + 1, seeded)
  {
    hide Fold, ApplyDelta, CheckIntegrity;
    assert events[..|events|] == events && (events + [e])[..|events| + 1] == events + [e];
    FoldOfLastDelta(start, events, e, RecvTime);
  }

  /** The first event of a new group, on a state with nothing pending. */
  lemma NewGroupTracks(s: State, a: Asset, start: Book, events: seq<BookEvent>, seeded: bool, e: BookEvent)
    requires s.pending.None? && TracksAt(s, a, start, events, |events|, seeded)
    requires e.asset == a && e.kind == Snapshot && (|events| > 0 ==> !SameRun(events[|events| - 1], e, RecvTime))
    ensures TracksAt(RecordSnapshot(s, e), a, start, events + [e], |events|, seeded)
  {
    hide Fold, LevelsOf;
    GroupStarted(e);
    assert (events + [e])[..|events|] == events[..|events|] && (events + [e])[|events|..] == [e];
  }

  /** A record that is not one of the asset's book events, on a state with nothing pending. */
  lemma OtherRecordTracks(s: State, a: Asset, start: Book, events: seq<BookEvent>, seeded: bool, r: PersistedRecord)
    requires s.pending.None? && TracksAt(s, a, start, events, |events|, seeded)
    requires !(r.BookRecord? && r.event.asset == a) && (CheckpointOf(r, a) ==> seeded || StartsWithSnapshot(events))
    ensures TracksAt(ApplyRecord(s, r), a, start, events, |events|, seeded)
  {
    hide Fold, GroupBook, DeltaAsset, CheckpointAsset;
  }

  /** A record that flushes whatever is pending, seen from one asset. */
  lemma FlushingRecordTracks(s: State, a: Asset, start: Book, events: seq<BookEvent>, m: nat, seeded: bool,
                             r: PersistedRecord)
    requires TracksAt(s, a, start, events, m, seeded) && (s.pending.Some? ==> Flushes(s, r))
    requires Fold(start, events, RecvTime).Some?
    requires CheckpointOf(r, a) ==> seeded || StartsWithSnapshot(events)
    requires r.BookRecord? && r.event.asset == a ==>
               && Fold(start, events + [r.event], RecvTime).Some?
               && (r.event.kind == Snapshot && |events| > 0 ==> !SameRun(events[|events| - 1], r.event, RecvTime))
    ensures var after := events + if r.BookRecord? && r.event.asset == a then [r.event] else [];
            Tracks(ApplyRecord(s, r), a, start, after, seeded)
  {
    hide Fold, TracksAt, MaterializedAsset, RecordSnapshot, RecordDelta, HydrateCheckpoint, RecordIngest, Seeds;
    FlushCompletesFold(s, a, start, events, m, seeded);
    var flushed := Materialize(s);
    assert ApplyRecord(s, r) == ApplyRecord(flushed, r);
    if r.BookRecord? && r.event.asset == a {
      if r.event.kind == Delta {
        DeltaTracks(flushed, a, start, events, seeded, r.event);
      } else {
        NewGroupTracks(flushed, a, start, events, seeded, r.event);
      }
    } else {
      OtherRecordTracks(flushed, a, start, events, seeded, r);
      assert events + [] == events;
    }
  }

  // ---------------------------------------------------------------------------------------------
  // The whole stream
  // ---------------------------------------------------------------------------------------------

  lemma {:induction false} LastEventAt(records: seq<PersistedRecord>, a: Asset) returns (p: nat)
    requires |EventsOf(records, a)| > 0
    ensures p < |records| && records[p] == BookRecord(EventsOf(records, a)[|EventsOf(records, a)| - 1])
    ensures EventsOf(records, a)[|EventsOf(records, a)| - 1].asset == a
  {
    var n := |records| - 1;
    if records[n].BookRecord? && records[n].event.asset == a {
      p := n;
    } else {
      p := LastEventAt(records[..n], a);
    }
  }

  /** Right after a snapshot event, its own group is the pending one. */
  lemma PendingAfterSnapshot(s: State, r: PersistedRecord)
    requires IsSnapshot(r)
    ensures ApplyRecord(s, r).pending.Some? && ApplyRecord(s, r).pending.value.key == KeyOf(r.event)
  {
  }

  /** A snapshot event that starts a new group is not in the run of the asset's previous event. */
  lemma NewGroupNewRun(s: State, records: seq<PersistedRecord>, a: Asset)
    requires |records| > 0 && WellGrouped(records, a) && SnapshotOf(records[|records| - 1], a)
    requires var init, e := records[..|records| - 1], records[|records| - 1].event;
             var before := RunRecords(s, init);
             |EventsOf(init, a)| > 0 && !(before.pending.Some? && before.pending.value.key == KeyOf(e))
    ensures var evs := EventsOf(records[..|records| - 1], a);
            !SameRun(evs[|evs| - 1], records[|records| - 1].event, RecvTime)
  {
    var n := |records| - 1;
    var init, e := records[..n], records[n].event;
    var evs := EventsOf(init, a);
    if SameRun(evs[|evs| - 1], e, RecvTime) {
      var p := LastEventAt(init, a);
      assert SameGroup(records[p], records[n - 1], a) && SameGroup(records[p], records[n], a);
      PendingAfterSnapshot(RunRecords(s, init[..n - 1]), init[n - 1]);
    }
  }

  lemma WellGroupedPrefix(records: seq<PersistedRecord>, n: nat, a: Asset)
    requires n <= |records| && WellGrouped(records, a)
    ensures WellGrouped(records[..n], a)
  {
  }

  /** Whatever the record, one step keeps the live state on the fold. */
  lemma OneRecordTracks(s: State, a: Asset, start: Book, events: seq<BookEvent>, m: nat, seeded: bool,
                        r: PersistedRecord)
    requires TracksAt(s, a, start, events, m, seeded)
    requires CheckpointOf(r, a) ==> seeded || StartsWithSnapshot(events)
    requires var after := events + if r.BookRecord? && r.event.asset == a then [r.event] else [];
             Fold(start, after, RecvTime).Some?
    requires SnapshotOf(r, a) && |events| > 0 && !(s.pending.Some? && s.pending.value.key == KeyOf(r.event)) ==>
               !SameRun(events[|events| - 1], r.event, RecvTime)
    ensures var after := events + if r.BookRecord? && r.event.asset == a then [r.event] else [];
            Tracks(ApplyRecord(s, r), a, start, after, seeded)
  {
    hide Fold, TracksAt, ApplyRecord, SameRun;
    if r.BookRecord? && r.event.asset == a {
      FoldOfPrefix(start, events, r.event);
    } else {
      assert events + [] == events;
    }
    if s.pending.None? || Flushes(s, r) {
      FlushingRecordTracks(s, a, start, events, m, seeded, r);
    } else if r.event.asset == a {
      ContinuedGroupTracks(s, a, start, events, m, seeded, r.event);
    } else {
      OtherGroupContinues(s, a, start, events, m, seeded, r.event);
      assert TracksAt(ApplyRecord(s, r), a, start, events, m, seeded);
    }
  }

  /** After any stream, the live state stands where the fold stands. */
  lemma {:induction false} LiveTracksFold(s: State, records: seq<PersistedRecord>, a: Asset)
    requires s.pending.None? && WellGrouped(records, a) && CheckpointsInert(records, a, Seeded(s, a))
    requires Fold(AssetOrNew(s.assets, a).book, EventsOf(records, a), RecvTime).Some?
    ensures Tracks(RunRecords(s, records), a, AssetOrNew(s.assets, a).book, EventsOf(records, a), Seeded(s, a))
  {
    var start := AssetOrNew(s.assets, a).book;
    if |records| == 0 {
      assert TracksAt(s, a, start, [], 0, Seeded(s, a));
    } else {
      hide Fold, WellGrouped, TracksAt, ApplyRecord, SameRun, Seeded;
      var n := |records| - 1;
      var init, r := records[..n], records[n];
      var evs, before := EventsOf(init, a), RunRecords(s, init);
      WellGroupedPrefix(records, n, a);
      PrefixAccepted(start, records, a);
      InertPrefix(records, n, a, Seeded(s, a));
      LiveTracksFold(s, init, a);
      var m: nat :| TracksAt(before, a, start, evs, m, Seeded(s, a));
      if SnapshotOf(r, a) && |evs| > 0 && !(before.pending.Some? && before.pending.value.key == KeyOf(r.event)) {
        NewGroupNewRun(s, records, a);
      }
      OneRecordTracks(before, a, start, evs, m, Seeded(s, a), r);
    }
  }

  lemma InertPrefix(records: seq<PersistedRecord>, n: nat, a: Asset, seeded: bool)
    requires n <= |records| && CheckpointsInert(records, a, seeded)
    ensures CheckpointsInert(records[..n], a, seeded)
  {
    assert forall k | 0 <= k < n :: records[..n][..k] == records[..k];
  }

  lemma PrefixAccepted(start: Book, records: seq<PersistedRecord>, a: Asset)
    requires |records| > 0 && Fold(start, EventsOf(records, a), RecvTime).Some?
    ensures Fold(start, EventsOf(records[..|records| - 1], a), RecvTime).Some?
  {
    hide Fold;
    var init, r := records[..|records| - 1], records[|records| - 1];
    if r.BookRecord? && r.event.asset == a {
      FoldOfPrefix(start, EventsOf(init, a), r.event);
    } else {
      assert EventsOf(records, a) == EventsOf(init, a);
    }
  }

  lemma OtherGroupContinues(s: State, a: Asset, start: Book, events: seq<BookEvent>, m: nat, seeded: bool, e: BookEvent)
    requires TracksAt(s, a, start, events, m, seeded) && s.pending.Some? && e.kind == Snapshot
    requires KeyOf(e) == s.pending.value.key && e.asset != a
    ensures TracksAt(ApplyRecord(s, BookRecord(e)), a, start, events, m, seeded)
  {
  }

  /**
   The live book, with the pending group applied, is the fold of the asset's events over its starting
   book: records of other assets, trades and ingest events in between change nothing.
   */
  lemma LiveIsFold(s: State, records: seq<PersistedRecord>, a: Asset)
    requires s.pending.None? && WellGrouped(records, a) && CheckpointsInert(records, a, Seeded(s, a))
    requires Fold(AssetOrNew(s.assets, a).book, EventsOf(records, a), RecvTime).Some?
    ensures Some(LiveBook(RunRecords(s, records), a))
            == Fold(AssetOrNew(s.assets, a).book, EventsOf(records, a), RecvTime)
  {
    hide Fold, WellGrouped, TracksAt, LiveBook;
    LiveTracksFold(s, records, a);
    var start := AssetOrNew(s.assets, a).book;
    var m: nat :| TracksAt(RunRecords(s, records), a, start, EventsOf(records, a), m, Seeded(s, a));
    FlushCompletesFold(RunRecords(s, records), a, start, EventsOf(records, a), m, Seeded(s, a));
  }

  // ---------------------------------------------------------------------------------------------
  // Live and replay agree
  // ---------------------------------------------------------------------------------------------

  lemma {:induction false} EventsOfConcat(x: seq<PersistedRecord>, y: seq<PersistedRecord>, a: Asset)
    ensures EventsOf(x + y, a) == EventsOf(x, a) + EventsOf(y, a)
  {
    if |y| == 0 {
      assert x + y == x;
    } else {
      EventsOfConcat(x, y[..|y| - 1], a);
      assert (x + y)[..|x + y| - 1] == x + y[..|y| - 1];
    }
  }

  /** Where in the stream the `i`-th event of the asset is. */
  lemma {:induction false} Locate(records: seq<PersistedRecord>, a: Asset, i: nat) returns (p: nat)
    requires i < |EventsOf(records, a)|
    ensures p < |records| && records[p] == BookRecord(EventsOf(records, a)[i]) && records[p].event.asset == a
    ensures |EventsOf(records[..p], a)| == i
  {
    var n := |records| - 1;
    if i == |EventsOf(records[..n], a)| {
      p := n;
    } else {
      p := Locate(records[..n], a, i);
      assert records[..n][..p] == records[..p];
    }
  }

  lemma CountMonotone(records: seq<PersistedRecord>, a: Asset, p: nat, q: nat)
    requires p <= q <= |records|
    ensures |EventsOf(records[..p], a)| <= |EventsOf(records[..q], a)|
  {
    EventsOfConcat(records[..p], records[p..q], a);
    assert records[..q] == records[..p] + records[p..q];
  }

  /** Groups that are contiguous in the stream are contiguous among the asset's own events. */
  lemma WellGroupedMeansContiguous(records: seq<PersistedRecord>, a: Asset)
    requires WellGrouped(records, a)
    ensures Contiguous(EventsOf(records, a), RecvTime)
  {
    hide EventsOf, SameGroup, KeyOf;
    var evs := EventsOf(records, a);
    forall i, k, j | 0 <= i <= k <= j < |evs| && SameRun(evs[i], evs[j], RecvTime)
           ensures SameRun(evs[i], evs[k], RecvTime) {
      var p := Locate(records, a, i);
      var r := Locate(records, a, k);
      var q := Locate(records, a, j);
      LocatedInOrder(records, a, p, r);
      LocatedInOrder(records, a, r, q);
      assert SameGroup(records[p], records[r], a);
      SameGroupSameRun(records[p], records[r], a);
    }
  }

  lemma SameGroupSameRun(x: PersistedRecord, y: PersistedRecord, a: Asset)
    requires SameGroup(x, y, a)
    ensures SameRun(x.event, y.event, RecvTime)
  {
  }

  /** Events come in the order of their counts. */
  lemma LocatedInOrder(records: seq<PersistedRecord>, a: Asset, p: nat, q: nat)
    requires p < |records| && q < |records| && records[q].BookRecord? && records[q].event.asset == a
    requires |EventsOf(records[..p], a)| <= |EventsOf(records[..q], a)|
    ensures p <= q
  {
    hide EventsOf;
    if q < p {
      EventsOfStep(records, a, q);
      CountMonotone(records, a, q + 1, p);
    }
  }

  lemma EventsOfStep(records: seq<PersistedRecord>, a: Asset, p: nat)
    requires p < |records| && records[p].BookRecord? && records[p].event.asset == a
    ensures |EventsOf(records[..p + 1], a)| == |EventsOf(records[..p], a)| + 1
  {
    assert records[..p + 1][..p] == records[..p];
  }

  /** Ordinals as stamped on arrival: present and increasing, with receive times that never go back. */
  ghost predicate InArrivalOrder(events: seq<BookEvent>) {
    && (forall i | 0 <= i < |events| :: events[i].provenance.ingestOrdinal.Some?)
    && forall i, j | 0 <= i < j < |events| ::
         && events[i].provenance.ingestOrdinal.value < events[j].provenance.ingestOrdinal.value
         && events[i].provenance.recvTimestampUs <= events[j].provenance.recvTimestampUs
  }

  lemma LaterArrivalSortsBehind(events: seq<BookEvent>, i: nat, j: nat)
    requires InArrivalOrder(events) && i < j < |events|
    ensures Compare(events[i], events[j], RecvTime) == Less
  {
    hide CompareContent;
    assert OrdinalOrMax(events[i]) < OrdinalOrMax(events[j]);
  }

  lemma ArrivalOrderIsSorted(events: seq<BookEvent>)
    requires InArrivalOrder(events)
    ensures SortEvents(events, RecvTime) == events && EqualMeansSame(events, RecvTime)
  {
    hide InArrivalOrder, Compare, SortEvents;
    forall i, j | 0 <= i < j < |events| ensures Compare(events[i], events[j], RecvTime) == Less {
      LaterArrivalSortsBehind(events, i, j);
    }
    SortOfSorted(events, RecvTime);
    forall x <- events, y <- events | Compare(x, y, RecvTime) == Equal ensures x == y {
      var i :| 0 <= i < |events| && events[i] == x;
      var j :| 0 <= j < |events| && events[j] == y;
      CompareIsTotalPreorder(x, y, y, RecvTime);
    }
  }

  /**
   From an empty book, the live book with its pending group applied equals the book that a receive-time
   replay reconstructs from the asset's stored events, in whatever order they are read back. The stream's
   groups are contiguous with distinct receive times, nothing is rejected, all of it is at or before the
   target, some snapshot exists, and no reset came after the last one.
   */
  lemma LiveEqualsReplay(s: State, records: seq<PersistedRecord>, a: Asset, target: U64, window: Window)
    requires s.pending.None? && AssetOrNew(s.assets, a).book == EMPTY_BOOK
    requires WellGrouped(records, a) && CheckpointsInert(records, a, Seeded(s, a))
    requires var evs := EventsOf(records, a);
             && InArrivalOrder(evs) && multiset(window.bookEvents) == multiset(evs)
             && Fold(EMPTY_BOOK, evs, RecvTime).Some?
             && (forall e <- evs :: e.provenance.recvTimestampUs <= target)
             && var idx := LastSeekable(evs, |evs|, target, RecvTime, None);
                idx.Some? && EarlyReset(LatestReset(window.ingestEvents, target), evs[idx.value], RecvTime)
    ensures var r := Reconstruct(a, target, RecvTime, None, window);
            r.Ok? && r.value.book == LiveBook(RunRecords(s, records), a)
  {
    hide Fold, SortEvents, LastSeekable, SeekCovered, Reconstruct, WellGrouped, EqualMeansSame, EarlyReset, Contiguous;
    var evs := EventsOf(records, a);
    ArrivalOrderIsSorted(evs);
    WellGroupedMeansContiguous(records, a);
    LiveIsFold(s, records, a);
    WholeHistoryUpTo(evs, target);
    SortedByTime(evs, RecvTime);
    ContiguousMeansCovered(evs, LastSeekable(evs, |evs|, target, RecvTime, None).value, target, RecvTime);
    var stored := Window(evs, window.ingestEvents);
    SeekIsFold(a, target, RecvTime, stored);
    ReadOrderIrrelevant(a, target, RecvTime, None, stored, window);
  }

  lemma WholeHistoryUpTo(events: seq<BookEvent>, target: U64)
    requires forall e <- events :: e.provenance.recvTimestampUs <= target
    ensures UpTo(events, target, RecvTime) == events
  {
    assert forall i | 0 <= i < |events| :: EventTs(events[i], RecvTime) <= target;
  }
}
