/** Replay to a target time looks at nothing later than that time. */
module Horizon {
  import opened Types
  import opened OrderBook
  import opened EventOrder
  import opened Replay
  import opened ReplayTheorems

  function AtOrBefore(target: U64, mode: ReplayMode): BookEvent -> bool {
    (e: BookEvent) => EventTs(e, mode) <= target
  }

  /** The window without book events later than the target. */
  function Past(window: Window, target: U64, mode: ReplayMode): Window {
    window.(bookEvents := Filter(window.bookEvents, AtOrBefore(target, mode)))
  }

  lemma PastOfSorted(events: seq<BookEvent>, target: U64, mode: ReplayMode)
    requires TimeSorted(events, mode)
    ensures Filter(events, AtOrBefore(target, mode)) == UpTo(events, target, mode)
  {
    hide EventTs, Filter;
    var n, keep := FirstAfter(events, 0, target, mode), AtOrBefore(target, mode);
    assert events == events[..n] + events[n..];
    FilterConcat(events[..n], events[n..], keep);
    forall e <- events[..n] ensures keep(e) {
      var i :| 0 <= i < n && events[i] == e;
    }
    forall e <- events[n..] ensures !keep(e) {
      var i :| n <= i < |events| && events[i] == e;
      assert EventTs(events[n], mode) <= EventTs(events[i], mode);
    }
    AllKept(events[..n], keep);
    NoneLeft(events[n..], keep);
  }

  lemma {:induction false} NoLaterSeekable(events: seq<BookEvent>, n: nat, m: nat, target: int, mode: ReplayMode,
                                           reset: Option<U64>)
    requires n <= m <= |events| && forall i | n <= i < m :: EventTs(events[i], mode) > target
    ensures LastSeekable(events, m, target, mode, reset) == LastSeekable(events, n, target, mode, reset)
    decreases m
  {
    hide EventTs;
    if n < m {
      NoLaterSeekable(events, n, m - 1, target, mode, reset);
    }
  }

  lemma GatheredOfPrefix(events: seq<BookEvent>, n: nat, ts: U64, mode: ReplayMode, reset: Option<U64>)
    requires n <= |events| && forall i | n <= i < |events| :: EventTs(events[i], mode) > ts
    ensures Gathered(events[..n], ts, mode, reset) == Gathered(events, ts, mode, reset)
  {
    hide EventTs, Filter;
    var keep := (e: BookEvent) => SnapshotAt(e, ts, mode) && AtOrAfter(e.provenance.recvTimestampUs, reset);
    assert events == events[..n] + events[n..];
    FilterConcat(events[..n], events[n..], keep);
    NoneLeft(events[n..], keep);
    assert Filter(events[..n], keep) + [] == Filter(events[..n], keep);
  }

  lemma {:induction false} FirstAfterOfPrefix(events: seq<BookEvent>, n: nat, i: nat, boundary: int, mode: ReplayMode)
    requires i <= n <= |events|
    ensures var whole, part := FirstAfter(events, i, boundary, mode), FirstAfter(events[..n], i, boundary, mode);
            part == if whole <= n then whole else n
    decreases n - i
  {
    hide EventTs;
    if i < n && EventTs(events[i], mode) <= boundary {
      FirstAfterOfPrefix(events, n, i + 1, boundary, mode);
    }
  }

  /** Where replay starts in the events up to the target. */
  lemma StartOfPast(events: seq<BookEvent>, n: nat, target: U64, mode: ReplayMode, checkpoint: Option<BookCheckpoint>,
                    reset: Option<U64>)
    requires n <= |events| && forall i | n <= i < |events| :: EventTs(events[i], mode) > target
    ensures var s, t := Start(events, target, mode, checkpoint, reset),
            Start(events[..n], target, mode, checkpoint, reset);
            if s.Err? then t == s
            else t == Ok((s.value.0, if s.value.1 <= n then s.value.1 else n))
  {
    hide EventTs, ApplySnapshotEvents, Gathered, ApplyCheckpoint, CheckpointTs;
    var kept := KeptCheckpoint(checkpoint, reset);
    if kept.Some? {
      FirstAfterOfPrefix(events, n, 0, CheckpointTs(kept.value, mode), mode);
    } else {
      NoLaterSeekable(events, n, |events|, target, mode, reset);
      LastSeekableOfPrefix(events, n, n, target, mode, reset);
      var idx := LastSeekable(events, n, target, mode, reset);
      if idx.Some? {
        GatheredOfPrefix(events, n, EventTs(events[idx.value], mode), mode, reset);
      }
    }
  }

  /** The loop stops at once behind the target. */
  lemma LoopBehindTarget(asset: Asset, events: seq<BookEvent>, i: nat, target: U64, mode: ReplayMode, b: Book)
    requires i <= |events| && (i < |events| ==> EventTs(events[i], mode) > target)
    ensures ReplayFrom(asset, events, i, target, mode, b) == Done(b, [])
  {
  }

  lemma ReplayOfPast(asset: Asset, events: seq<BookEvent>, i: nat, target: U64, mode: ReplayMode, b: Book)
    requires TimeSorted(events, mode) && i <= |events|
    ensures var n := FirstAfter(events, 0, target, mode);
            ReplayFrom(asset, events, i, target, mode, b)
            == ReplayFrom(asset, events[..n], if i <= n then i else n, target, mode, b)
  {
    hide ReplayFrom, EventTs;
    var n := FirstAfter(events, 0, target, mode);
    if i <= n {
      LoopOfPrefix(asset, events, n, i, target, mode, b);
    } else {
      assert i < |events| ==> EventTs(events[n], mode) <= EventTs(events[i], mode);
      LoopBehindTarget(asset, events, i, target, mode, b);
      LoopBehindTarget(asset, events[..n], n, target, mode, b);
    }
  }

  /**
   The whole result of a replay, in either clock mode and with or without a checkpoint, is the one it has
   without any book event later than the target.
   */
  lemma FutureIrrelevant(asset: Asset, target: U64, mode: ReplayMode, checkpoint: Option<BookCheckpoint>,
                         window: Window)
    ensures Reconstruct(asset, target, mode, checkpoint, window)
            == Reconstruct(asset, target, mode, checkpoint, Past(window, target, mode))
  {
    hide SortEvents, Start, ReplayFrom, LatestReset, TimeSorted, Filter, KeptCheckpoint, Concluded, EventTs;
    var events := SortEvents(window.bookEvents, mode);
    var reset, n := LatestReset(window.ingestEvents, target), FirstAfter(events, 0, target, mode);
    SortedByTime(window.bookEvents, mode);
    FilterSort(window.bookEvents, AtOrBefore(target, mode), mode);
    PastOfSorted(events, target, mode);
    AllLater(events, target, mode);
    StartOfPast(events, n, target, mode, checkpoint, reset);
    var start := Start(events, target, mode, checkpoint, reset);
    if start.Ok? {
      ReplayOfPast(asset, events, start.value.1, target, mode, start.value.0);
    }
  }

  lemma AllLater(events: seq<BookEvent>, target: U64, mode: ReplayMode)
    requires TimeSorted(events, mode)
    ensures forall i | FirstAfter(events, 0, target, mode) <= i < |events| :: EventTs(events[i], mode) > target
  {
    hide EventTs;
    var n := FirstAfter(events, 0, target, mode);
    forall i | n <= i < |events| ensures EventTs(events[i], mode) > target {
      assert EventTs(events[n], mode) <= EventTs(events[i], mode);
    }
  }

  /** Events that all lie behind the target can be left out at the end of a window. */
  lemma LaterEventsIrrelevant(asset: Asset, target: U64, mode: ReplayMode, earlier: seq<BookEvent>,
                              later: seq<BookEvent>,
                              ingest: seq<IngestEvent>)
    requires forall e <- later :: EventTs(e, mode) > target
    ensures Reconstruct(asset, target, mode, None, Window(earlier + later, ingest))
            == Reconstruct(asset, target, mode, None, Window(earlier, ingest))
  {
    hide Reconstruct, Filter, EventTs;
    var keep := AtOrBefore(target, mode);
    FilterConcat(earlier, later, keep);
    NoneLeft(later, keep);
    assert Filter(earlier, keep) + [] == Filter(earlier, keep);
    FutureIrrelevant(asset, target, mode, None, Window(earlier + later, ingest));
    FutureIrrelevant(asset, target, mode, None, Window(earlier, ingest));
  }
}
