/** When the book that replay reaches by seeking is the fold of the whole history: the exact condition. */
module SeekExact {
  import opened Types
  import opened OrderBook
  import opened EventOrder
  import opened Replay
  import opened ReplayTheorems

  // ---------------------------------------------------------------------------------------------
  // Deltas over two books
  // ---------------------------------------------------------------------------------------------

  ghost predicate AllDeltas(events: seq<BookEvent>) {
    forall e <- events :: e.kind == Delta
  }

  function SideOf(b: Book, side: Side): Levels {
    if side == Bid then b.bids else b.asks
  }

  /** The level at a price, if there is one. */
  function LevelAt(b: Book, side: Side, p: Price): Option<U64> {
    var levels := SideOf(b, side);
    if p in levels then Some(levels[p]) else None
  }

  predicate Sets(e: BookEvent, side: Side, p: Price) {
    e.side == side && e.price == p
  }

  /** What the last of the deltas for this price leaves there, if there is one. */
  function LastSet(events: seq<BookEvent>, side: Side, p: Price): (r: Option<Option<U64>>)
    ensures r.Some? <==> exists e <- events :: Sets(e, side, p)
  {
    if |events| == 0 then None
    else
      var init, e := events[..|events| - 1], events[|events| - 1];
      assert events == init + [e];
      if Sets(e, side, p) then Some(if e.size == 0 then None else Some(e.size)) else LastSet(init, side, p)
  }

  lemma SameLevelsIff(x: Book, y: Book)
    ensures SameLevels(x, y) <==> forall side, p :: LevelAt(x, side, p) == LevelAt(y, side, p)
  {
    if forall side, p :: LevelAt(x, side, p) == LevelAt(y, side, p) {
      forall side ensures SideOf(x, side) == SideOf(y, side) {
        SameSide(x, y, side);
      }
      assert SideOf(x, Bid) == SideOf(y, Bid) && SideOf(x, Ask) == SideOf(y, Ask);
    }
  }

  lemma SameSide(x: Book, y: Book, side: Side)
    requires forall p :: LevelAt(x, side, p) == LevelAt(y, side, p)
    ensures SideOf(x, side) == SideOf(y, side)
  {
    forall p: Price
      ensures p in SideOf(x, side) <==> p in SideOf(y, side)
      ensures p in SideOf(x, side) ==> SideOf(x, side)[p] == SideOf(y, side)[p]
    {
      assert LevelAt(x, side, p) == LevelAt(y, side, p);
    }
  }

  /** A level after deltas is what the last one for its price left, or what was there before. */
  lemma {:induction false} LevelAfterDeltas(b: Book, events: seq<BookEvent>, mode: ReplayMode, side: Side, p: Price)
    requires AllDeltas(events) && Fold(b, events, mode).Some?
    ensures var last := LastSet(events, side, p);
            LevelAt(Fold(b, events, mode).value, side, p) == if last.Some? then last.value else LevelAt(b, side, p)
  {
    if |events| > 0 {
      hide Fold, ApplyDeltaEvent, EventTs;
      var init, e := events[..|events| - 1], events[|events| - 1];
      assert events == init + [e] && e in events;
      FoldOfLastDelta(b, init, e, mode);
      LevelAfterDeltas(b, init, mode, side, p);
      LevelAfterDelta(Fold(b, init, mode).value, e, EventTs(e, mode), side, p);
    }
  }

  lemma LevelAfterDelta(b: Book, e: BookEvent, ts: U64, side: Side, p: Price)
    requires ApplyDeltaEvent(b, e, ts).Ok?
    ensures LevelAt(ApplyDeltaEvent(b, e, ts).value, side, p)
            == if Sets(e, side, p) then (if e.size == 0 then None else Some(e.size)) else LevelAt(b, side, p)
  {
    hide Fits;
  }

  /** Over two books, deltas reach the same levels if and only if they set every price where the books differ. */
  lemma DeltasAgreeIff(x: Book, y: Book, events: seq<BookEvent>, mode: ReplayMode)
    requires AllDeltas(events) && Fold(x, events, mode).Some? && Fold(y, events, mode).Some?
    ensures SameLevels(Fold(x, events, mode).value, Fold(y, events, mode).value)
            <==> forall side, p | LevelAt(x, side, p) != LevelAt(y, side, p) :: LastSet(events, side, p).Some?
  {
    hide Fold, LevelAt, LastSet, SameLevels, AllDeltas;
    var a, b := Fold(x, events, mode).value, Fold(y, events, mode).value;
    SameLevelsIff(a, b);
    forall side, p
      ensures LevelAt(a, side, p) == LevelAt(b, side, p)
              <==> (LevelAt(x, side, p) == LevelAt(y, side, p) || LastSet(events, side, p).Some?)
    {
      LevelAfterDeltas(x, events, mode, side, p);
      LevelAfterDeltas(y, events, mode, side, p);
    }
  }

  // ---------------------------------------------------------------------------------------------
  // Gathering, then deltas
  // ---------------------------------------------------------------------------------------------

  /** A price that the earlier snapshot events set and the last run does not. */
  predicate Uncovered(earlier: seq<BookEvent>, run: seq<BookEvent>, side: Side, p: Price) {
    p in LastWins(LevelsOf(earlier, side)) && p !in LastWins(LevelsOf(run, side))
  }

  lemma GatheredLevel(earlier: seq<BookEvent>, run: seq<BookEvent>, ts: U64, side: Side, p: Price)
    requires ApplySnapshotEvents(earlier + run, ts).Ok? && ApplySnapshotEvents(run, ts).Ok?
    ensures LevelAt(ApplySnapshotEvents(earlier + run, ts).value, side, p)
            != LevelAt(ApplySnapshotEvents(run, ts).value, side, p)
            <==> Uncovered(earlier, run, side, p)
  {
    hide LevelsOf, PrefixesFit, LastWins;
    LevelsOfConcat(earlier, run, side);
    LastWinsConcat(LevelsOf(earlier, side), LevelsOf(run, side));
  }

  /**
   Starting from an earlier group gathered together with the last run, deltas lead to the levels they lead to
   from the last run alone if and only if they set every price which only the earlier group set.
   */
  lemma GatheredThenDeltasIff(earlier: seq<BookEvent>, run: seq<BookEvent>, ts: U64, later: seq<BookEvent>,
                              mode: ReplayMode)
    requires ApplySnapshotEvents(earlier + run, ts).Ok? && ApplySnapshotEvents(run, ts).Ok? && AllDeltas(later)
    requires Fold(ApplySnapshotEvents(earlier + run, ts).value, later, mode).Some?
    requires Fold(ApplySnapshotEvents(run, ts).value, later, mode).Some?
    ensures SameLevels(Fold(ApplySnapshotEvents(earlier + run, ts).value, later, mode).value,
                       Fold(ApplySnapshotEvents(run, ts).value, later, mode).value)
            <==> forall side, p | Uncovered(earlier, run, side, p) :: LastSet(later, side, p).Some?
  {
    hide Fold, ApplySnapshotEvents, LevelAt, LastSet, SameLevels, AllDeltas, Uncovered;
    var x, y := ApplySnapshotEvents(earlier + run, ts).value, ApplySnapshotEvents(run, ts).value;
    DeltasAgreeIff(x, y, later, mode);
    forall side, p ensures LevelAt(x, side, p) != LevelAt(y, side, p) <==> Uncovered(earlier, run, side, p) {
      GatheredLevel(earlier, run, ts, side, p);
    }
  }

  // ---------------------------------------------------------------------------------------------
  // The whole replay
  // ---------------------------------------------------------------------------------------------

  /** After the seek point there are only deltas up to the target. */
  lemma DeltasBehindSeekPoint(events: seq<BookEvent>, idx: nat, target: U64, mode: ReplayMode)
    requires TimeSorted(events, mode) && LastSeekable(events, |events|, target, mode, None) == Some(idx)
    ensures AllDeltas(UpTo(events[idx + 1..], target, mode))
  {
    hide LastSeekable, EventTs, TimeSorted;
    var later := UpTo(events[idx + 1..], target, mode);
    forall e <- later ensures e.kind == Delta {
      var i :| 0 <= i < |later| && later[i] == e;
      assert events[idx + 1 + i] == e && !Seekable(events[idx + 1 + i], target, mode, None);
    }
  }

  lemma FoldFromRun(events: seq<BookEvent>, idx: nat, target: U64, mode: ReplayMode)
    requires TimeSorted(events, mode) && LastSeekable(events, |events|, target, mode, None) == Some(idx)
    requires Fold(EMPTY_BOOK, UpTo(events, target, mode), mode).Some?
    ensures var run := ApplySnapshotEvents(events[RunStart(events, idx, mode)..idx + 1], EventTs(events[idx], mode));
            && run.Ok?
            && Fold(run.value, UpTo(events[idx + 1..], target, mode), mode)
               == Fold(EMPTY_BOOK, UpTo(events, target, mode), mode)
  {
    hide Fold, ApplySnapshotEvents, UpTo, LastSeekable, EventTs, RunStart, TimeSorted;
    SplitAtSeekPoint(events, idx, target, mode);
    FoldEndingInRun(EMPTY_BOOK, events, idx + 1, mode);
  }

  lemma StartFromGathered(events: seq<BookEvent>, idx: nat, target: U64, mode: ReplayMode)
    requires LastSeekable(events, |events|, target, mode, None) == Some(idx)
    requires ApplySnapshotEvents(Gathered(events, EventTs(events[idx], mode), mode, None),
                                 EventTs(events[idx], mode)).Ok?
    ensures var ts := EventTs(events[idx], mode);
            && Start(events, target, mode, None, None)
               == Ok((ApplySnapshotEvents(Gathered(events, ts, mode, None), ts).value, idx + 1))
            && Gathered(events, ts, mode, None) == CutOff(events, idx, mode)
               + events[RunStart(events, idx, mode)..idx + 1]
  {
    hide ApplySnapshotEvents, Gathered, LastSeekable, EventTs, RunStart, CutOff;
    GatheredSplits(events, target, mode);
  }

  lemma LoopFromSeekPoint(asset: Asset, events: seq<BookEvent>, idx: nat, target: U64, mode: ReplayMode, b: Book)
    requires TimeSorted(events, mode) && idx < |events| && Fold(b, UpTo(events[idx + 1..], target, mode), mode).Some?
    ensures var o := ReplayFrom(asset, events, idx + 1, target, mode, b);
            o.Done? && Some(o.book) == Fold(b, UpTo(events[idx + 1..], target, mode), mode)
  {
    hide Fold, ReplayFrom, UpTo, EventTs;
    assert events[..idx + 1] + events[idx + 1..] == events;
    LoopFrom(asset, events[..idx + 1], events[idx + 1..], target, mode, b);
  }

  /** The book that replay reaches in a sorted window, and the fold, when nothing on either way is rejected. */
  ghost predicate NothingRejected(events: seq<BookEvent>, idx: nat, target: U64, mode: ReplayMode)
    requires idx < |events|
  {
    var ts := EventTs(events[idx], mode);
    var gathered := ApplySnapshotEvents(Gathered(events, ts, mode, None), ts);
    && gathered.Ok? && Fold(gathered.value, UpTo(events[idx + 1..], target, mode), mode).Some?
    && Fold(EMPTY_BOOK, UpTo(events, target, mode), mode).Some?
  }

  /** Every price that only the cut-off snapshot events set is set by a later delta up to the target. */
  ghost predicate MadeUp(events: seq<BookEvent>, idx: nat, target: U64, mode: ReplayMode)
    requires idx < |events| && events[idx].kind == Snapshot
  {
    var earlier, run := CutOff(events, idx, mode), events[RunStart(events, idx, mode)..idx + 1];
    var later := UpTo(events[idx + 1..], target, mode);
    forall side, p | Uncovered(earlier, run, side, p) :: LastSet(later, side, p).Some?
  }

  lemma SeekedLoopIff(asset: Asset, events: seq<BookEvent>, idx: nat, target: U64, mode: ReplayMode)
    requires TimeSorted(events, mode) && LastSeekable(events, |events|, target, mode, None) == Some(idx)
    requires NothingRejected(events, idx, target, mode)
    ensures var start := Start(events, target, mode, None, None);
            && start.Ok?
            && var o := ReplayFrom(asset, events, start.value.1, target, mode, start.value.0);
               && o.Done?
               && (SameLevels(o.book, Fold(EMPTY_BOOK, UpTo(events, target, mode), mode).value)
                   <==> MadeUp(events, idx, target, mode))
  {
    hide Fold, UpTo, ApplySnapshotEvents, Gathered, LastSeekable, EventTs, RunStart, CutOff, TimeSorted, Uncovered,
      LastSet, ReplayFrom, Start, SameLevels, AllDeltas;
    var ts, run := EventTs(events[idx], mode), events[RunStart(events, idx, mode)..idx + 1];
    var later := UpTo(events[idx + 1..], target, mode);
    StartFromGathered(events, idx, target, mode);
    FoldFromRun(events, idx, target, mode);
    DeltasBehindSeekPoint(events, idx, target, mode);
    var gathered := ApplySnapshotEvents(Gathered(events, ts, mode, None), ts).value;
    LoopFromSeekPoint(asset, events, idx, target, mode, gathered);
    GatheredThenDeltasIff(CutOff(events, idx, mode), run, ts, later, mode);
  }

  /**
   Unless a reset intervenes or something is rejected on the way, the book that replay reaches by seeking has
   the levels of the whole history's fold if and only if every price set by the snapshot events that deltas
   cut off from the last run, and not by that run, is set again by a delta between it and the target.
   */
  lemma SeekIsFoldIff(asset: Asset, target: U64, mode: ReplayMode, window: Window)
    requires var events := SortEvents(window.bookEvents, mode);
             var idx := LastSeekable(events, |events|, target, mode, None);
             && idx.Some? && NothingRejected(events, idx.value, target, mode)
             && EarlyReset(LatestReset(window.ingestEvents, target), events[idx.value], mode)
    ensures var events := SortEvents(window.bookEvents, mode);
            var idx := LastSeekable(events, |events|, target, mode, None).value;
            var r := Reconstruct(asset, target, mode, None, window);
            && r.Ok?
            && (SameLevels(r.value.book, Fold(EMPTY_BOOK, UpTo(events, target, mode), mode).value)
                <==> MadeUp(events, idx, target, mode))
  {
    hide Fold, SortEvents, LastSeekable, ReplayFrom, Start, UpTo, LatestReset, TimeSorted, CrossedNotices, EarlyReset,
      MadeUp, NothingRejected, SameLevels;
    var events := SortEvents(window.bookEvents, mode);
    SortedByTime(window.bookEvents, mode);
    EarlyResetIgnored(events, target, mode, LatestReset(window.ingestEvents, target));
    SeekedLoopIff(asset, events, LastSeekable(events, |events|, target, mode, None).value, target, mode);
    FoldExists(events, LastSeekable(events, |events|, target, mode, None).value, target, mode);
  }

  lemma FoldExists(events: seq<BookEvent>, idx: nat, target: U64, mode: ReplayMode)
    requires idx < |events| && NothingRejected(events, idx, target, mode)
    ensures Fold(EMPTY_BOOK, UpTo(events, target, mode), mode).Some?
  {
    hide Fold, UpTo;
  }
}
