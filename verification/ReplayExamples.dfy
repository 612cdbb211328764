/** Concrete windows on which replay does not do what one might expect of it. */
module ReplayExamples {
  import opened Types
  import opened OrderBook
  import opened EventOrder
  import opened Replay
  import opened ReplayTheorems

  /** A one-lot bid event of the asset. */
  function Sample(kind: BookEventKind, price: Price, recv: U64, exchange: U64, seqNo: U64): BookEvent {
    BookEvent("asset", kind, Bid, price, 1, EventProvenance(recv, exchange, WebSocket, None, None, Some(seqNo), None))
  }

  lemma SmallLevelsFit(p: Price, q: Price)
    ensures Fits(map[]) && Fits(map[p := 1]) && Fits(map[p := 1][q := 1])
  {
    SumOfEmpty(GRID);
    SumAfterSet(map[], p, 1, GRID);
    SumAfterSet(map[p := 1], q, 1, GRID);
  }

  lemma LevelsOfOne(e: BookEvent, side: Side)
    ensures LevelsOf([e], side) == if e.side == side then [Level(e.price, e.size)] else []
  {
    LevelsOfNone([], side);
    assert [] + [e] == [e];
    LevelsAfterPush([], e, side);
  }

  lemma LevelsOfNone(events: seq<BookEvent>, side: Side)
    requires |events| == 0
    ensures LevelsOf(events, side) == []
  {
  }

  lemma OneLevel(l: Level)
    requires l.size == 1
    ensures PrefixesFit([l]) && LastWins([l]) == map[l.price := 1] && PrefixesFit([]) && LastWins([]) == map[]
  {
    SmallLevelsFit(l.price, l.price);
    assert [l][..0] == [] && [l][..1] == [l];
    assert LastWins([l]) == map[l.price := 1];
  }

  /** A one-event snapshot is accepted and leaves one level. */
  lemma SampleSnapshot(e: BookEvent, ts: U64)
    requires e.side == Bid && e.size == 1
    ensures ApplySnapshotEvents([e], ts) == Ok(Book(map[e.price := 1], map[], SequenceOf(e.provenance), true, ts))
  {
    hide PrefixesFit, LastWins, LevelsOf;
    LevelsOfOne(e, Bid);
    LevelsOfOne(e, Ask);
    OneLevel(Level(e.price, 1));
  }

  lemma TwoLevels(l: Level, m: Level)
    requires l.size == 1 && m.size == 1
    ensures PrefixesFit([l, m]) && LastWins([l, m]) == map[l.price := 1][m.price := 1]
  {
    hide Fits;
    var s := [l, m];
    OneLevel(l);
    SmallLevelsFit(l.price, m.price);
    assert s[..0] == [] && s[..1] == [l] && s[..2] == s && s[..|s| - 1] == [l];
    assert LastWins(s) == LastWins([l])[m.price := 1];
    forall k | 0 <= k <= |s| ensures Fits(LastWins(s[..k])) {
      assert k == 0 || k == 1 || k == 2;
    }
  }

  /** A two-event snapshot leaves both levels. */
  lemma SamplePair(e: BookEvent, f: BookEvent, ts: U64)
    requires e.side == Bid && e.size == 1 && f.side == Bid && f.size == 1
    ensures ApplySnapshotEvents([e, f], ts)
            == Ok(Book(map[e.price := 1][f.price := 1], map[], SequenceOf(f.provenance), true, ts))
  {
    hide PrefixesFit, LastWins, LevelsOf;
    assert [e] + [f] == [e, f];
    forall side ensures LevelsOf([e, f], side) == if side == Bid then [Level(e.price, 1), Level(f.price, 1)] else [] {
      LevelsOfOne(e, side);
      LevelsAfterPush([e], f, side);
    }
    OneLevel(Level(e.price, 1));
    TwoLevels(Level(e.price, 1), Level(f.price, 1));
  }

  lemma SampleDelta(b: Book, p: Price, e: BookEvent, ts: U64)
    requires b.bids == map[p := 1] && e.side == Bid && e.size == 1
    ensures ApplyDeltaEvent(b, e, ts)
            == Ok(b.(bids := map[p := 1][e.price := 1], sequence := SequenceOf(e.provenance), seqInitialized := true,
                     lastUpdateUs := ts))
  {
    SmallLevelsFit(p, e.price);
    hide Fits;
  }

  // ---------------------------------------------------------------------------------------------
  // Exchange time
  // ---------------------------------------------------------------------------------------------

  const SNAPSHOT := Sample(Snapshot, 1, 10, 5, 0)
  const EARLY_DELTA := Sample(Delta, 2, 7, 6, 0)
  const RESET := IngestEvent(None, SourceReset, EventProvenance(8, 0, WebSocket, None, None, None, None), None, None)

  lemma FilterOfTwo(a: BookEvent, b: BookEvent, keep: BookEvent -> bool)
    requires keep(a) && !keep(b)
    ensures Filter([a, b], keep) == [a] && Filter([a], keep) == [a]
  {
    AllKept([a], keep);
    NoneLeft([b], keep);
    FilterConcat([a], [b], keep);
    assert [a] + [b] == [a, b];
  }

  lemma ExchangeStart(events: seq<BookEvent>)
    requires events == [SNAPSHOT] || events == [SNAPSHOT, EARLY_DELTA]
    ensures Start(events, 20, ExchangeTime, None, Some(8)) == Ok((Book(map[1 := 1], map[], 0, true, 5), 1))
  {
    hide ApplySnapshotEvents, Filter;
    var keep := (e: BookEvent) => SnapshotAt(e, 5, ExchangeTime) && AtOrAfter(e.provenance.recvTimestampUs, Some(8));
    FilterOfTwo(SNAPSHOT, EARLY_DELTA, keep);
    SampleSnapshot(SNAPSHOT, 5);
    assert Seekable(events[0], 20, ExchangeTime, Some(8));
    assert |events| > 1 ==> !Seekable(events[1], 20, ExchangeTime, Some(8));
  }

  lemma ExchangeLoop()
    ensures var b := Book(map[1 := 1], map[], 0, true, 5);
            var with, without := ReplayFrom("asset", [SNAPSHOT, EARLY_DELTA], 1, 20, ExchangeTime, b),
                                 ReplayFrom("asset", [SNAPSHOT], 1, 20, ExchangeTime, b);
            with.Done? && without.Done? && 2 in with.book.bids && 2 !in without.book.bids
  {
    hide ApplyDeltaEvent, GapNotices;
    var b := Book(map[1 := 1], map[], 0, true, 5);
    SampleDelta(b, 1, EARLY_DELTA, 6);
    var after := ApplyDeltaEvent(b, EARLY_DELTA, 6).value;
    assert ReplayFrom("asset", [SNAPSHOT, EARLY_DELTA], 2, 20, ExchangeTime, after) == Done(after, []);
  }

  lemma ExchangeSorted()
    ensures SortEvents([SNAPSHOT, EARLY_DELTA], ExchangeTime) == [SNAPSHOT, EARLY_DELTA]
    ensures SortEvents([SNAPSHOT], ExchangeTime) == [SNAPSHOT]
  {
    SortOfSorted([SNAPSHOT, EARLY_DELTA], ExchangeTime);
    SortOfSorted([SNAPSHOT], ExchangeTime);
  }

  /**
   In exchange time the isolation can fail: a delta received before the reset but stamped later by the
   exchange sorts behind the chosen snapshot and is replayed on top of it.
   */
  lemma ExchangeTimeCrossesReset()
    ensures var window := Window([SNAPSHOT, EARLY_DELTA], [RESET]);
            && LatestReset(window.ingestEvents, 20) == Some(8)
            && SinceReset(window, 8).bookEvents == [SNAPSHOT]
            && var a, b := Reconstruct("asset", 20, ExchangeTime, None, window),
                           Reconstruct("asset", 20, ExchangeTime, None, SinceReset(window, 8));
               a.Ok? && b.Ok? && 2 in a.value.book.bids && 2 !in b.value.book.bids
  {
    hide SortEvents, Filter, Start, ReplayFrom, CrossedNotices;
    assert [RESET][..0] == [];
    FilterOfTwo(SNAPSHOT, EARLY_DELTA, ReceivedSince(8));
    ExchangeSorted();
    ExchangeStart([SNAPSHOT, EARLY_DELTA]);
    ExchangeStart([SNAPSHOT]);
    ExchangeLoop();
  }

  // ---------------------------------------------------------------------------------------------
  // Gathering what deltas cut off
  // ---------------------------------------------------------------------------------------------

  const FIRST := Sample(Snapshot, 1, 10, 0, 0)
  const BETWEEN := Sample(Delta, 3, 10, 0, 1)
  const SECOND := Sample(Snapshot, 2, 10, 0, 2)

  lemma GatheredStart()
    ensures Start([FIRST, BETWEEN, SECOND], 20, RecvTime, None, None)
            == Ok((Book(map[1 := 1][2 := 1], map[], 2, true, 10), 3))
  {
    hide ApplySnapshotEvents, Filter;
    var events := [FIRST, BETWEEN, SECOND];
    var keep := (e: BookEvent) => SnapshotAt(e, 10, RecvTime) && AtOrAfter(e.provenance.recvTimestampUs, None);
    assert events[2] == SECOND && Seekable(events[2], 20, RecvTime, None);
    FilterOfTwo(FIRST, BETWEEN, keep);
    assert [FIRST, BETWEEN] + [SECOND] == events && [FIRST] + [SECOND] == [FIRST, SECOND];
    FilterPush([FIRST, BETWEEN], SECOND, keep);
    SamplePair(FIRST, SECOND, 10);
  }

  lemma FoldedOnly()
    ensures Fold(EMPTY_BOOK, [FIRST, BETWEEN, SECOND], RecvTime) == Some(Book(map[2 := 1], map[], 2, true, 10))
  {
    hide Fold, ApplySnapshotEvents, ApplyDeltaEvent;
    SampleSnapshot(FIRST, 10);
    SampleSnapshot(SECOND, 10);
    FoldNothing(Some(EMPTY_BOOK), [], RecvTime);
    FoldOfLastRun(EMPTY_BOOK, [], [FIRST], 10, RecvTime);
    assert [] + [FIRST] == [FIRST] && [FIRST] + [BETWEEN] == [FIRST, BETWEEN];
    SampleDelta(Book(map[1 := 1], map[], 0, true, 10), 1, BETWEEN, 10);
    FoldOfLastDelta(EMPTY_BOOK, [FIRST], BETWEEN, RecvTime);
    FoldOfLastRun(EMPTY_BOOK, [FIRST, BETWEEN], [SECOND], 10, RecvTime);
    assert [FIRST, BETWEEN] + [SECOND] == [FIRST, BETWEEN, SECOND];
  }

  /**
   Seeking can differ from folding: of two snapshot events of one time with a delta between them, seeking
   applies both, while in the whole history the second replaces the first.
   */
  lemma SeekingCanDiffer()
    ensures var window := Window([FIRST, BETWEEN, SECOND], []);
            var events := SortEvents(window.bookEvents, RecvTime);
            var r, f := Reconstruct("asset", 20, RecvTime, None, window),
                Fold(EMPTY_BOOK, UpTo(events, 20, RecvTime), RecvTime);
            r.Ok? && f.Some? && 1 in r.value.book.bids && 1 !in f.value.bids
  {
    hide SortEvents, Start, ReplayFrom, CrossedNotices, Fold, UpTo;
    GatheredSorted();
    assert LatestReset([], 20) == None;
    GatheredStart();
    LoopAtEnd([FIRST, BETWEEN, SECOND], Book(map[1 := 1][2 := 1], map[], 2, true, 10));
    FoldedOnly();
  }

  lemma GatheredSorted()
    ensures var events := [FIRST, BETWEEN, SECOND];
            SortEvents(events, RecvTime) == events && UpTo(events, 20, RecvTime) == events
  {
    var events := [FIRST, BETWEEN, SECOND];
    assert forall i | 0 <= i < 3 :: EventTs(events[i], RecvTime) == 10;
    FirstAfterIs(events, 3, 20, RecvTime);
    SortOfSorted(events, RecvTime);
    assert events[..3] == events;
  }

  lemma LoopAtEnd(events: seq<BookEvent>, b: Book)
    ensures ReplayFrom("asset", events, |events|, 20, RecvTime, b) == Done(b, [])
  {
  }

  // ---------------------------------------------------------------------------------------------
  // A tie of different kinds
  // ---------------------------------------------------------------------------------------------

  /** An event of one bid price, without an ordinal. */
  function Legacy(kind: BookEventKind, size: U64, seqNo: U64): BookEvent {
    BookEvent("asset", kind, Bid, 1, size, EventProvenance(10, 0, WebSocket, None, None, Some(seqNo), None))
  }

  const LOT := Legacy(Snapshot, 1, 0)
  const EMPTIED := Legacy(Snapshot, 0, 1)
  const REMOVED := Legacy(Delta, 0, 1)

  lemma TiedSorted()
    ensures Compare(EMPTIED, REMOVED, RecvTime) == Equal
    ensures SortEvents([LOT, EMPTIED, REMOVED], RecvTime) == [LOT, EMPTIED, REMOVED]
    ensures SortEvents([LOT, REMOVED, EMPTIED], RecvTime) == [LOT, REMOVED, EMPTIED]
  {
    hide SortEvents;
    assert Before(LOT, EMPTIED, RecvTime) && Before(LOT, REMOVED, RecvTime);
    assert Before(EMPTIED, REMOVED, RecvTime) && Before(REMOVED, EMPTIED, RecvTime);
    hide Before, Compare;
    SortOfSorted([LOT, EMPTIED, REMOVED], RecvTime);
    SortOfSorted([LOT, REMOVED, EMPTIED], RecvTime);
  }

  /** The zero entry is skipped: the snapshot group leaves the lot. */
  lemma TiedSnapshot()
    ensures ApplySnapshotEvents([LOT, EMPTIED], 10) == Ok(Book(map[1 := 1], map[], 1, true, 10))
  {
    hide PrefixesFit, LevelsOf, Fits;
    assert [LOT] + [EMPTIED] == [LOT, EMPTIED];
    forall side ensures LevelsOf([LOT, EMPTIED], side) == if side == Bid then [Level(1, 1), Level(1, 0)] else [] {
      LevelsOfOne(LOT, side);
      LevelsAfterPush([LOT], EMPTIED, side);
    }
    OneLevel(Level(1, 1));
    LotThenZero();
  }

  lemma LotThenZero()
    ensures PrefixesFit([Level(1, 1), Level(1, 0)]) && LastWins([Level(1, 1), Level(1, 0)]) == map[1 := 1]
  {
    hide Fits;
    var s := [Level(1, 1), Level(1, 0)];
    assert s[..0] == [] && s[..1] == [Level(1, 1)] && s[..2] == s && [Level(1, 1)][..0] == [];
    assert LastWins([Level(1, 1)]) == map[1 := 1];
    SmallLevelsFit(1, 1);
    forall k | 0 <= k <= |s| ensures Fits(LastWins(s[..k])) {
      assert k == 0 || k == 1 || k == 2;
    }
  }

  lemma TiedStart(events: seq<BookEvent>, at: nat)
    requires (events == [LOT, EMPTIED, REMOVED] && at == 2) || (events == [LOT, REMOVED, EMPTIED] && at == 3)
    ensures Start(events, 20, RecvTime, None, None) == Ok((Book(map[1 := 1], map[], 1, true, 10), at))
  {
    hide ApplySnapshotEvents, Filter;
    var keep := (e: BookEvent) => SnapshotAt(e, 10, RecvTime) && AtOrAfter(e.provenance.recvTimestampUs, None);
    assert Seekable(EMPTIED, 20, RecvTime, None) && !Seekable(REMOVED, 20, RecvTime, None);
    assert events[at - 1] == EMPTIED;
    if at == 2 {
      AllKept([LOT, EMPTIED], keep);
      FilterPush([LOT, EMPTIED], REMOVED, keep);
      assert [LOT, EMPTIED] + [REMOVED] == events;
    } else {
      FilterOfTwo(LOT, REMOVED, keep);
      FilterPush([LOT, REMOVED], EMPTIED, keep);
      assert [LOT, REMOVED] + [EMPTIED] == events && [LOT] + [EMPTIED] == [LOT, EMPTIED];
    }
    TiedSnapshot();
  }

  lemma TiedLoop()
    ensures var o := ReplayFrom("asset", [LOT, EMPTIED, REMOVED], 2, 20, RecvTime,
                                Book(map[1 := 1], map[], 1, true, 10));
            o.Done? && o.book.bids == map[]
  {
    SumOfEmpty(GRID);
    var b := Book(map[1 := 1], map[], 1, true, 10);
    assert map[1 := 1] - {1} == map[];
    var after := ApplyDeltaEvent(b, REMOVED, 10).value;
    hide GapNotices, ApplyDeltaEvent;
    LoopAtEnd([LOT, EMPTIED, REMOVED], after);
  }

  /**
   The book can depend on the order in which a window was read: a zero-size snapshot event and a delta that
   removes the same price compare equal, and replay goes on with whichever was read last.
   */
  lemma KindTieDependsOnReadOrder()
    ensures var x, y := Window([LOT, EMPTIED, REMOVED], []), Window([LOT, REMOVED, EMPTIED], []);
            var a, b := Reconstruct("asset", 20, RecvTime, None, x), Reconstruct("asset", 20, RecvTime, None, y);
            && multiset(x.bookEvents) == multiset(y.bookEvents)
            && a.Ok? && b.Ok? && a.value.book.bids == map[] && b.value.book.bids == map[1 := 1]
  {
    hide SortEvents, Start, ReplayFrom, CrossedNotices, Compare;
    TiedSorted();
    assert LatestReset([], 20) == None;
    TiedStart([LOT, EMPTIED, REMOVED], 2);
    TiedStart([LOT, REMOVED, EMPTIED], 3);
    TiedLoop();
    LoopAtEnd([LOT, REMOVED, EMPTIED], Book(map[1 := 1], map[], 1, true, 10));
    LastTwoSwapped(LOT, EMPTIED, REMOVED);
  }

  lemma LastTwoSwapped<T>(x: T, y: T, z: T)
    ensures multiset([x, y, z]) == multiset([x, z, y])
  {
    assert [x, y, z] == [x] + [y] + [z] && [x, z, y] == [x] + [z] + [y];
  }
}
