/** Concrete runs on which the components do not do what one might expect of them. */
module RunExamples {
  import opened Types
  import opened OrderBook
  import opened EventOrder
  import opened Replay
  import opened ReplayTheorems
  import opened ReplayExamples
  import opened LiveState
  import opened LiveReplay
  import opened Dispatcher
  import opened DispatcherTheorems
  import opened Agreement
  import opened AgreementInTime
  import opened ArrayBook
  import opened Projector
  import opened Hydration
  import opened HydrationTheorems

  const ONE_BID := [Level(1, 1)]
  const NO_LEVELS: seq<Level> := []

  /** A snapshot message of one printed bid. */
  function OneBidMessage(recvUs: U64): FeedMessage {
    BookMessage("asset", recvUs, 0, None, Printed(ONE_BID), Printed(NO_LEVELS))
  }

  function EmptyMessage(recvUs: U64): FeedMessage {
    BookMessage("asset", recvUs, 0, None, [], [])
  }

  /** More bids than one side may have. */
  function OversizedMessage(recvUs: U64): FeedMessage {
    BookMessage("asset", recvUs, 0, None, seq(MAX_BOOK_LEVELS_PER_SIDE + 1, _ => WireLevel("", "")), [])
  }

  lemma RunOfOne(m: FeedMessage)
    ensures HandleAll(INITIAL, [m]) == Handle(INITIAL, m)
  {
    assert [m][..0] == [];
  }

  /** After the one-bid snapshot the shadow book holds that bid. */
  lemma AfterOneBid()
    ensures var d := HandleAll(INITIAL, [OneBidMessage(1)]);
            Live(d, "asset") && |d.emitted| < U64_LIMIT && d.books["asset"].bids == map[1 := 1]
  {
    hide HandleBook, Live, PrefixesFit, LastWins, Printed;
    var m := OneBidMessage(1);
    RunOfOne(m);
    OneLevel(Level(1, 1));
    PrintedLengths();
    FirstSnapshotIsLive(m, ONE_BID, NO_LEVELS);
    PrintedSnapshotArrives(INITIAL, m, ONE_BID, NO_LEVELS);
    assert Live(HandleBook(INITIAL, m), "asset");
    LiveHasBook(HandleBook(INITIAL, m));
  }

  lemma PrintedLengths()
    ensures |Printed(ONE_BID)| == 1 && |Printed(NO_LEVELS)| == 0
  {
  }

  lemma LiveHasBook(d: Dispatch)
    requires Live(d, "asset")
    ensures "asset" in d.books
  {
  }

  lemma TwoClocked(x: FeedMessage, y: FeedMessage)
    requires x.recvUs < y.recvUs
    ensures Clocked([x]) && Clocked([x, y]) && [x] + [y] == [x, y]
  {
  }

  /**
   A snapshot of one bid, then an oversized snapshot message: live model and shadow book still hold the bid,
   and the replay of everything stored finds no snapshot to start from.
   */
  lemma OversizedMessageBlocksReplay(s: State)
    requires s.pending.None?
    ensures var d := HandleAll(INITIAL, [OneBidMessage(1), OversizedMessage(2)]);
            && |d.emitted| <= U64_LIMIT && "asset" in d.books && d.books["asset"].bids == map[1 := 1]
            && var stamped := Stamped(d.emitted);
               && SameLevels(LiveBook(RunRecords(s, stamped), "asset"), d.books["asset"])
               && Reconstruct("asset", 2, RecvTime, None,
                              Window(EventsOf(stamped, "asset"), IngestOf(stamped, "asset")))
                  == Err(NoSnapshotFound)
  {
    hide HandleAll, HandleBook, Live, LiveBook, RunRecords, Reconstruct, EventsOf, IngestOf, Stamped, Clocked,
      SameLevels, Printed;
    var x, y := OneBidMessage(1), OversizedMessage(2);
    AfterOneBid();
    TwoClocked(x, y);
    var before, d := HandleAll(INITIAL, [x]), HandleAll(INITIAL, [x, y]);
    assert RefusedWithReset(before, y);
    SecondMessage(x, y);
    RefusalAnnouncesReset(before, y);
    LiveHasBook(before);
    var window := Window(EventsOf(Stamped(d.emitted), "asset"), IngestOf(Stamped(d.emitted), "asset"));
    RefusalBlocksReplay([x], y, s, 2, window);
  }

  lemma SecondMessage(x: FeedMessage, y: FeedMessage)
    ensures HandleAll(INITIAL, [x, y]) == Handle(HandleAll(INITIAL, [x]), y)
  {
    assert [x, y][..1] == [x];
  }

  /** A stored ingest event is one of the records. */
  lemma {:induction false} IngestHasRecord(records: seq<PersistedRecord>, a: Asset, e: IngestEvent) returns (i: nat)
    requires e in IngestOf(records, a)
    ensures i < |records| && records[i] == IngestRecord(e)
  {
    var n := |records| - 1;
    if e in IngestOf(records[..n], a) {
      i := IngestHasRecord(records[..n], a, e);
    } else {
      i := n;
    }
  }

  /** No stored reset is later than the last record. */
  lemma ResetBound(records: seq<PersistedRecord>, a: Asset, now: U64, target: U64)
    requires |records| <= U64_LIMIT && InOrder(records, now)
    ensures AtOrAfter(now, LatestReset(IngestOf(Stamped(records), a), target))
  {
    hide IngestOf, LatestReset;
    var ingest := IngestOf(Stamped(records), a);
    LatestResetIsMax(ingest, target);
    if LatestReset(ingest, target).Some? {
      var e :| e in ingest && IsReset(e, target) && e.provenance.recvTimestampUs == LatestReset(ingest, target).value;
      var i := IngestHasRecord(Stamped(records), a, e);
      assert Stamped(records)[i] == StampRecord(records[i], i) && RecvUs(records[i]) <= now;
    }
  }

  /**
   A snapshot of one bid, then one without levels: the shadow book is empty, while the live book and the
   replayed book still hold the bid.
   */
  lemma EmptySnapshotLeavesStaleBid(s: State)
    requires s.pending.None?
    ensures var d := HandleAll(INITIAL, [OneBidMessage(1), EmptyMessage(2)]);
            && |d.emitted| <= U64_LIMIT && "asset" in d.books && Bare(d.books["asset"])
            && var stamped := Stamped(d.emitted);
               var r := Reconstruct("asset", 2, RecvTime, None,
                                    Window(EventsOf(stamped, "asset"), IngestOf(stamped, "asset")));
               && LiveBook(RunRecords(s, stamped), "asset").bids == map[1 := 1]
               && r.Ok? && r.value.book.bids == map[1 := 1]
  {
    hide HandleAll, HandleBook, Live, LiveBook, RunRecords, Reconstruct, EventsOf, IngestOf, Stamped, Clocked,
      SameLevels, Printed, Sent, LatestReset, InOrder, Marked, AllWellGrouped, CameFrom, CrossedNotices, ApplySnapshot;
    var x, y := OneBidMessage(1), EmptyMessage(2);
    AfterOneBid();
    TwoClocked(x, y);
    var before := HandleAll(INITIAL, [x]);
    LiveHasBook(before);
    OutputShape([x]);
    ResetBound(before.emitted, "asset", 1, 2);
    var k := SentFromMessage([x], "asset");
    var window := Window(EventsOf(Stamped(before.emitted), "asset"), IngestOf(Stamped(before.emitted), "asset"));
    ThreeBooksAgree([x], "asset", s, 2, window);
    SecondMessage(x, y);
    EmptySnapshotUnseen(before, y, s);
    assert SameLevels(LiveBook(RunRecords(s, Stamped(before.emitted)), "asset"), before.books["asset"]);
    SameBids(LiveBook(RunRecords(s, Stamped(before.emitted)), "asset"), before.books["asset"]);
  }

  lemma SameBids(x: Book, y: Book)
    requires SameLevels(x, y)
    ensures x.bids == y.bids
  {
  }

  // ---------------------------------------------------------------------------------------------
  // Two snapshots at one receive time
  // ---------------------------------------------------------------------------------------------

  /** A second snapshot with another bid, received at the same time but stamped 5 by the exchange. */
  const SECOND_BID := BookMessage("asset", 1, 5, None, Printed([Level(2, 1)]), Printed(NO_LEVELS))

  function BidEvent(price: Price, exchangeUs: U64, ordinal: Option<U64>): BookEvent {
    BookEvent("asset", Snapshot, Bid, price, 1, EventProvenance(1, exchangeUs, WebSocket, None, None, Some(0), ordinal))
  }

  /** What a snapshot of one printed bid sends. */
  lemma OneBidSends(d: Dispatch, price: Price, exchangeUs: U64)
    requires d.session == None
    requires var m := BookMessage("asset", 1, exchangeUs, None, Printed([Level(price, 1)]), Printed(NO_LEVELS));
             !IsStale(d, m)
    ensures var m := BookMessage("asset", 1, exchangeUs, None, Printed([Level(price, 1)]), Printed(NO_LEVELS));
            var d' := HandleBook(d, m);
            && d'.emitted == d.emitted + [BookRecord(BidEvent(price, exchangeUs, None))] && d'.session == None
            && "asset" in d'.books && d'.books["asset"].bids == map[price := 1]
            && d'.since == d.since["asset" := |d.emitted|]
            && d'.lastSnapshotTs == if exchangeUs > 0 then d.lastSnapshotTs["asset" := exchangeUs] else d.lastSnapshotTs
  {
    hide PrefixesFit, LastWins, Printed, ParseLevels;
    var m := BookMessage("asset", 1, exchangeUs, None, Printed([Level(price, 1)]), Printed(NO_LEVELS));
    PrintedIsReadBack([Level(price, 1)]);
    PrintedIsReadBack(NO_LEVELS);
    assert |m.bids| == 1 && |m.asks| == 0 by {
      PrintedCount([Level(price, 1)]);
      PrintedCount(NO_LEVELS);
    }
    OneLevel(Level(price, 1));
    assert SnapshotBook(m) == Ok(Book(map[price := 1], map[], 0, true, exchangeUs));
    var accepted := AcceptSnapshot(d, m, SnapshotBook(m).value);
    EmitOneLevel(accepted, m, Bid, Level(price, 1));
    EmitNoLevels(EmitLevels(accepted, m, Bid, [Level(price, 1)]), m, Ask, NO_LEVELS);
    hide EmitLevels;
  }

  lemma EmitOneLevel(d: Dispatch, m: FeedMessage, side: Side, l: Level)
    requires m.BookMessage?
    ensures EmitLevels(d, m, side, [l]) == EmitBookEvent(d, m.asset, Snapshot, side, l, m.recvUs, m.exchangeUs, m.hash)
  {
    assert [l][..0] == [];
  }

  lemma EmitNoLevels(d: Dispatch, m: FeedMessage, side: Side, levels: seq<Level>)
    requires m.BookMessage? && |levels| == 0
    ensures EmitLevels(d, m, side, levels) == d
  {
  }

  lemma PrintedCount(levels: seq<Level>)
    ensures |Printed(levels)| == |levels|
  {
  }

  lemma SameTimeRun()
    ensures var d := HandleAll(INITIAL, [OneBidMessage(1), SECOND_BID]);
            && d.emitted == [BookRecord(BidEvent(1, 0, None)), BookRecord(BidEvent(2, 5, None))]
            && "asset" in d.books && d.books["asset"].bids == map[2 := 1] && d.since == map["asset" := 1]
  {
    hide HandleBook, HandleAll;
    var x := OneBidMessage(1);
    RunOfOne(x);
    SecondMessage(x, SECOND_BID);
    OneBidSends(INITIAL, 1, 0);
    OneBidSends(HandleBook(INITIAL, x), 2, 5);
    assert [] + [BookRecord(BidEvent(1, 0, None))] + [BookRecord(BidEvent(2, 5, None))]
           == [BookRecord(BidEvent(1, 0, None)), BookRecord(BidEvent(2, 5, None))];
  }

  lemma SameTimeStored()
    ensures var emitted := [BookRecord(BidEvent(1, 0, None)), BookRecord(BidEvent(2, 5, None))];
            EventsOf(Stamped(emitted), "asset") == [BidEvent(1, 0, Some(0)), BidEvent(2, 5, Some(1))]
  {
    var emitted := [BookRecord(BidEvent(1, 0, None)), BookRecord(BidEvent(2, 5, None))];
    var x, y := BidEvent(1, 0, Some(0)), BidEvent(2, 5, Some(1));
    assert Stamped(emitted) == [] + [BookRecord(x)] + [BookRecord(y)];
    EventsAfterPush([], BookRecord(x), "asset");
    EventsAfterPush([] + [BookRecord(x)], BookRecord(y), "asset");
  }

  /** Replay gathers both groups. */
  lemma SameTimeReplay()
    ensures var r := Reconstruct("asset", 1, RecvTime, None,
                                 Window([BidEvent(1, 0, Some(0)), BidEvent(2, 5, Some(1))], []));
            r.Ok? && r.value.book.bids == map[1 := 1][2 := 1]
  {
    var x, y := BidEvent(1, 0, Some(0)), BidEvent(2, 5, Some(1));
    var keep := (e: BookEvent) => SnapshotAt(e, 1, RecvTime) && AtOrAfter(e.provenance.recvTimestampUs, None);
    assert Before(x, y, RecvTime);
    SortOfSorted([x, y], RecvTime);
    assert Seekable([x, y][1], 1, RecvTime, None) && LatestReset([], 1) == None;
    hide ApplySnapshotEvents, Filter, SortEvents, Compare, ReplayFrom, CrossedNotices;
    AllKept([x, y], keep);
    SamplePair(x, y, 1);
    LoopBehind([x, y], Book(map[1 := 1][2 := 1], map[], 0, true, 1));
  }

  lemma LoopBehind(events: seq<BookEvent>, b: Book)
    ensures ReplayFrom("asset", events, |events|, 1, RecvTime, b) == Done(b, [])
  {
  }

  /**
   Two snapshots of an asset received at one time: shadow book and live book hold the second one's bid, and
   the replay of what is stored holds both.
   */
  lemma SameTimeSnapshotsMerge(s: State)
    requires s.pending.None?
    ensures var d := HandleAll(INITIAL, [OneBidMessage(1), SECOND_BID]);
            && |d.emitted| <= U64_LIMIT && "asset" in d.books && d.books["asset"].bids == map[2 := 1]
            && LiveBook(RunRecords(s, Stamped(d.emitted)), "asset").bids == map[2 := 1]
            && var r := Reconstruct("asset", 1, RecvTime, None, Window(EventsOf(Stamped(d.emitted), "asset"), []));
               r.Ok? && r.value.book.bids == map[1 := 1][2 := 1]
  {
    hide HandleAll, Reconstruct, LiveBook, RunRecords, Stamped, SameLevels, EventsOf;
    var x := OneBidMessage(1);
    SameTimeRun();
    SameTimeStored();
    SameTimeReplay();
    var d := HandleAll(INITIAL, [x, SECOND_BID]);
    SameTimeIsLive(d);
    SameTimeLiveAgrees([x, SECOND_BID], "asset", s);
    SameBids(LiveBook(RunRecords(s, Stamped(d.emitted)), "asset"), d.books["asset"]);
  }

  lemma SameTimeIsLive(d: Dispatch)
    requires d.emitted == [BookRecord(BidEvent(1, 0, None)), BookRecord(BidEvent(2, 5, None))]
    requires "asset" in d.books && d.since == map["asset" := 1]
    ensures Live(d, "asset") && NewGroupAtMark(d, "asset")
  {
    assert d.emitted[1..] == [] + [BookRecord(BidEvent(2, 5, None))];
    EventsAfterPush([], BookRecord(BidEvent(2, 5, None)), "asset");
  }

  // ---------------------------------------------------------------------------------------------
  // Exchange times
  // ---------------------------------------------------------------------------------------------

  /** An empty snapshot stamped 5 by the exchange. */
  const TIMED := BookMessage("asset", 1, 5, None, [], [])

  /** The exchange time of accepted snapshots goes back when the later one has none. */
  lemma UntimedSnapshotAccepted()
    ensures var d := HandleAll(INITIAL, [TIMED]);
            && Accepted(INITIAL, TIMED) && Accepted(d, EmptyMessage(2))
            && d.lastSnapshotTs == map["asset" := 5] && EmptyMessage(2).exchangeUs < 5
            && IsStale(d, BookMessage("asset", 2, 4, None, [], []))
  {
    RunOfOne(TIMED);
    SumOfEmpty(GRID);
    hide HandleAll;
    assert ApplySnapshot([], [], 0, 5) == Ok(Book(map[], map[], 0, true, 5));
    assert ApplySnapshot([], [], 0, 0) == Ok(Book(map[], map[], 0, true, 0));
    TrackerAfter(INITIAL, TIMED);
    UntimedNeverStale(HandleAll(INITIAL, [TIMED]), EmptyMessage(2));
  }

  // ---------------------------------------------------------------------------------------------
  // Zero-size snapshot entries
  // ---------------------------------------------------------------------------------------------

  /** A zero entry after a non-zero one: the map book keeps the level, the array book removes it. */
  lemma ZeroEntryReadDifferently()
    ensures var entries := [Level(1, 1), Level(1, 0)];
            LastWins(entries) == map[1 := 1] && SetAll(entries) == map[]
  {
    var entries := [Level(1, 1), Level(1, 0)];
    assert entries[..1] == [Level(1, 1)] && [Level(1, 1)][..0] == [];
    assert LastWins([Level(1, 1)]) == map[1 := 1] && SetAll([Level(1, 1)]) == map[1 := 1];
  }

  // ---------------------------------------------------------------------------------------------
  // A silently rejected group
  // ---------------------------------------------------------------------------------------------

  const STARTING := State(map[], None, [], Metadata(Starting, None, None, None, false))
  const LARGEST: U64 := 0xFFFF_FFFF_FFFF_FFFF
  const STAMP := EventProvenance(1, 1, WebSocket, None, None, Some(0), None)

  /** One event of a group whose two bids together overflow 64 bits. */
  function LargeBid(price: Price): BookEvent {
    BookEvent("asset", Snapshot, Bid, price, LARGEST, STAMP)
  }

  const TRADE := TradeEvent("asset", 1, STAMP)

  lemma LargeLevelsOverflow()
    ensures var levels := [Level(1, LARGEST), Level(2, LARGEST)]; !PrefixesFit(levels)
  {
    var levels := [Level(1, LARGEST), Level(2, LARGEST)];
    assert levels[..1] == [Level(1, LARGEST)] && [Level(1, LARGEST)][..0] == [] && levels[..2] == levels;
    assert LastWins([Level(1, LARGEST)]) == map[1 := LARGEST];
    assert LastWins(levels) == map[1 := LARGEST][2 := LARGEST];
    SumOfEmpty(GRID);
    SumAfterSet(map[], 1, LARGEST, GRID);
    SumAfterSet(map[1 := LARGEST], 2, LARGEST, GRID);
  }

  /** The state after the two large bids holds them as its pending group. */
  lemma AfterLargeBids()
    ensures var s := NextState(NextState(STARTING, Record(BookRecord(LargeBid(1)))), Record(BookRecord(LargeBid(2))));
            && RejectsSilently(s, Record(TradeRecord(TRADE))) && WellFiled(s)
            && !RejectsSilently(STARTING, Record(BookRecord(LargeBid(1))))
            && !RejectsSilently(NextState(STARTING, Record(BookRecord(LargeBid(1)))), Record(BookRecord(LargeBid(2))))
  {
    hide PrefixesFit, LastWins;
    LargeLevelsOverflow();
    assert [] + [Level(1, LARGEST)] == [Level(1, LARGEST)];
    assert SequenceOf(STAMP) == 0;
    var one := NextState(STARTING, Record(BookRecord(LargeBid(1))));
    assert one.pending == Some(PendingSnapshot(KeyOf(LargeBid(1)), [Level(1, LARGEST)], [], 0, 1));
    var two := NextState(one, Record(BookRecord(LargeBid(2))));
    assert [Level(1, LARGEST)] + [Level(2, LARGEST)] == [Level(1, LARGEST), Level(2, LARGEST)];
    assert two.pending == Some(PendingSnapshot(KeyOf(LargeBid(1)), [Level(1, LARGEST), Level(2, LARGEST)], [], 0, 1));
  }

  /** Two snapshot events that overflow together, then a trade: the published view goes stale. */
  lemma SilentRejectionLeavesViewStale()
    ensures var commands := [Record(BookRecord(LargeBid(1))), Record(BookRecord(LargeBid(2))),
                             Record(TradeRecord(TRADE))];
            RunPublished(BuildPublished(STARTING), STARTING, commands) != BuildPublished(RunState(STARTING, commands))
  {
    hide NextState, NextPublished, BuildPublished, RejectsSilently;
    var first, second, third := Record(BookRecord(LargeBid(1))), Record(BookRecord(LargeBid(2))),
        Record(TradeRecord(TRADE));
    AfterLargeBids();
    CacheStaysExactIff(STARTING, first);
    NextStateWellFiled(STARTING, first);
    CacheStaysExactIff(NextState(STARTING, first), second);
    CacheStaysExactIff(NextState(NextState(STARTING, first), second), third);
    RunOfThree(BuildPublished(STARTING), STARTING, first, second, third);
  }

  lemma RunOfThree(p: PublishedState, s: State, a: Command, b: Command, c: Command)
    ensures var two := NextState(NextState(s, a), b);
            && RunState(s, [a, b, c]) == NextState(two, c)
            && RunPublished(p, s, [a, b, c])
               == NextPublished(NextPublished(NextPublished(p, s, a), NextState(s, a), b), two, c)
  {
    hide NextState, NextPublished;
    assert [a, b, c][1..] == [b, c] && [b, c][1..] == [c] && [c][1..] == [];
    assert RunState(NextState(s, a), [b, c]) == RunState(NextState(NextState(s, a), b), [c]);
    var q := NextPublished(p, s, a);
    assert RunPublished(q, NextState(s, a), [b, c])
           == RunPublished(NextPublished(q, NextState(s, a), b), NextState(NextState(s, a), b), [c]);
  }

  // ---------------------------------------------------------------------------------------------
  // A checkpoint ahead of its log
  // ---------------------------------------------------------------------------------------------

  /** An empty checkpoint whose cut lies past the end of the log. */
  const AHEAD := BookCheckpoint("asset", 1, STAMP, [], [], Some(10))
  const ONE_BID_DELTA := BookEvent("asset", Delta, Bid, 1, 1, STAMP)
  const APPENDED := [LogEntry(5, Some(BookRecord(ONE_BID_DELTA)))]

  function RecoveredFrom(entries: seq<LogEntry>): (State, HydrationResult) {
    Recovered(STARTING, Found([Some(AHEAD)]), Log(0, entries, false), ["asset"])
  }

  lemma SeededAhead(entries: seq<LogEntry>)
    ensures var x := SeedFrom(STARTING, Found([Some(AHEAD)]), Log(0, entries, false), ["asset"]);
            && x.cuts == map["asset" := 10] && x.loaded == 1
            && x.state == HydrateCheckpoint(SetReady(STARTING, false), AHEAD)
  {
    var start := SetReady(STARTING, false);
    assert SeedAll(start, ["asset"], [Some(AHEAD)], true, 0) == Seeding(start, map[], 0);
    assert SeedAll(start, ["asset"], [Some(AHEAD)], true, 1)
           == SeedOne(SeedAll(start, ["asset"], [Some(AHEAD)], true, 0), "asset", Some(AHEAD), true);
  }

  /**
   A checkpoint covers more than the log held, so recovery reports the log's end and the tail then applies a
   delta that recovery of the longer log skips: the two books differ.
   */
  lemma CheckpointAheadOfLogDiverges()
    ensures Decodable(APPENDED)
    ensures var before, after := RecoveredFrom([]), RecoveredFrom(APPENDED);
            && before.1.recoverySucceeded && after.1.recoverySucceeded && before.1.walEndPosition == Some(0)
            && TailFrom(APPENDED, 0) == APPENDED
            && LiveBook(RunRecords(before.0, Records(APPENDED)), "asset").bids == map[1 := 1]
            && LiveBook(after.0, "asset").bids == map[]
  {
    hide RunRecords, Records, LiveBook, TailFrom;
    RecoveredAhead([]);
    RecoveredAhead(APPENDED);
    assert [] + APPENDED == APPENDED;
    ReadsTheRest(0, [], APPENDED);
    TailOnEmpty(RecoveredFrom([]).0);
  }

  /** Recovery keeps the empty checkpoint and applies nothing. */
  lemma RecoveredAhead(entries: seq<LogEntry>)
    requires entries == [] || entries == APPENDED
    ensures var r := RecoveredFrom(entries);
            && r.0.pending.None? && AssetOrNew(r.0.assets, "asset").book.bids == map[] && r.1.recoverySucceeded
            && LiveBook(r.0, "asset").bids == map[]
            && (entries == [] ==> r.1.walEndPosition == Some(0))
  {
    SeededAhead(entries);
    SumOfEmpty(GRID);
    NothingApplied(entries);
    hide Applied, LowestCut, Stop, SeedFrom;
  }

  /** Every entry ends at or before the only cut. */
  lemma NothingApplied(entries: seq<LogEntry>)
    requires entries == [] || entries == APPENDED
    ensures var cuts := map["asset" := 10];
            && LowestCut(["asset"], cuts) == Some(10) && Stop(entries, Some(10), 0) == |entries|
            && Applied(entries[..|entries|], Some(10), cuts) == []
  {
    var cuts := map["asset" := 10];
    assert "asset" in ["asset"];
    var lowest := LowestCut(["asset"], cuts);
    assert entries[..|entries|] == entries;
    if entries == APPENDED {
      assert Applied(APPENDED[..0], Some(10), cuts) == [];
    }
  }

  lemma TailOnEmpty(s: State)
    requires s.pending.None? && AssetOrNew(s.assets, "asset").book.bids == map[]
    ensures LiveBook(RunRecords(s, Records(APPENDED)), "asset").bids == map[1 := 1]
  {
    SmallLevelsFit(1, 1);
    assert Records(APPENDED) == [BookRecord(ONE_BID_DELTA)] && Records(APPENDED)[..0] == [];
    assert RunRecords(s, Records(APPENDED)) == ApplyRecord(s, BookRecord(ONE_BID_DELTA));
  }
}
