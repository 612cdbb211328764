/** Where replay starts, read off the events' and the checkpoint's own clocks. */
module SeekStarts {
  import opened Types
  import opened OrderBook
  import opened EventOrder
  import opened Replay
  import opened ReplayTheorems

  /** An event's time on the replay clock; without an exchange time it counts by its receive time. */
  function Clock(e: BookEvent, mode: ReplayMode): U64 {
    if mode == ExchangeTime && e.provenance.exchangeTimestampUs > 0 then e.provenance.exchangeTimestampUs
    else e.provenance.recvTimestampUs
  }

  /** A checkpoint's time on the replay clock; without an exchange time it counts by its own timestamp. */
  function CheckpointClock(c: BookCheckpoint, mode: ReplayMode): U64 {
    if mode == RecvTime then c.provenance.recvTimestampUs
    else if c.provenance.exchangeTimestampUs > 0 then c.provenance.exchangeTimestampUs
    else c.checkpointTimestampUs
  }

  lemma ClockIs(e: BookEvent, mode: ReplayMode)
    ensures EventTs(e, mode) == Clock(e, mode)
  {
  }

  /** Sorted events come in the order of their clock. */
  lemma SortedByClock(events: seq<BookEvent>, mode: ReplayMode, i: nat, j: nat)
    requires IsSorted(events, mode) && i <= j < |events|
    ensures Clock(events[i], mode) <= Clock(events[j], mode)
  {
    if i < j {
      assert Before(events[i], events[j], mode);
    }
  }

  /** The position splits the events by their clock: those before it are no later than `ts`, all others are later. */
  ghost predicate SplitsAt(events: seq<BookEvent>, mode: ReplayMode, ts: U64, i: nat) {
    && i <= |events|
    && (forall j | 0 <= j < i :: Clock(events[j], mode) <= ts)
    && forall j | i <= j < |events| :: Clock(events[j], mode) > ts
  }

  /** A checkpoint counts unless it was received before the latest reset. */
  predicate Counts(c: Option<BookCheckpoint>, reset: Option<U64>) {
    c.Some? && (reset.None? || c.value.provenance.recvTimestampUs >= reset.value)
  }

  /**
   With a checkpoint that counts, replay starts from exactly its levels, at its time on the replay clock, and
   with exactly the events that are later; a checkpoint whose totals do not fit fails the replay.
   */
  lemma StartsAfterCheckpoint(events: seq<BookEvent>, target: U64, mode: ReplayMode, checkpoint: Option<BookCheckpoint>,
                              reset: Option<U64>)
    requires Counts(checkpoint, reset) && IsSorted(events, mode)
    ensures var c, start := checkpoint.value, Start(events, target, mode, checkpoint, reset);
            var ts := CheckpointClock(c, mode);
            if PrefixesFit(c.bids) && PrefixesFit(c.asks) then
              && start.Ok? && start.value.0 == Book(LastWins(c.bids), LastWins(c.asks), 0, true, ts)
              && SplitsAt(events, mode, ts, start.value.1)
            else start.Err? && start.error.BookFailure?
  {
    hide PrefixesFit, LastWins, EventTs, Clock, IsSorted;
    forall e: BookEvent ensures EventTs(e, mode) == Clock(e, mode) {
      ClockIs(e, mode);
    }
    var ts := CheckpointClock(checkpoint.value, mode);
    var i := FirstAfter(events, 0, ts, mode);
    forall j | i <= j < |events| ensures Clock(events[j], mode) > ts {
      SortedByClock(events, mode, i, j);
    }
  }

  /** A snapshot replay may start from: no later than the target and not received before the latest reset. */
  predicate Eligible(e: BookEvent, target: U64, mode: ReplayMode, reset: Option<U64>) {
    && e.kind == Snapshot && Clock(e, mode) <= target
    && (reset.None? || e.provenance.recvTimestampUs >= reset.value)
  }

  ghost predicate IsLastEligible(events: seq<BookEvent>, target: U64, mode: ReplayMode, reset: Option<U64>, k: nat) {
    && k < |events| && Eligible(events[k], target, mode, reset)
    && forall j | k < j < |events| :: !Eligible(events[j], target, mode, reset)
  }

  /** The levels of one side that the eligible snapshot events of one time carry, in order. */
  function LevelsAt(events: seq<BookEvent>, side: Side, ts: U64, target: U64, mode: ReplayMode, reset: Option<U64>)
    : seq<Level>
  {
    if |events| == 0 then []
    else
      var e := events[|events| - 1];
      LevelsAt(events[..|events| - 1], side, ts, target, mode, reset)
      + if Eligible(e, target, mode, reset) && Clock(e, mode) == ts && e.side == side then [Level(e.price, e.size)]
        else []
  }

  lemma {:induction false} GatheredLevels(events: seq<BookEvent>, side: Side, ts: U64, target: U64, mode: ReplayMode,
                                          reset: Option<U64>)
    requires ts <= target
    ensures LevelsOf(Gathered(events, ts, mode, reset), side) == LevelsAt(events, side, ts, target, mode, reset)
  {
    if |events| > 0 {
      hide Clock, EventTs, Gathered;
      var n := |events| - 1;
      GatheredLevels(events[..n], side, ts, target, mode, reset);
      GatheredStep(events, ts, mode, reset);
      ClockIs(events[n], mode);
      var init := Gathered(events[..n], ts, mode, reset);
      assert (init + [events[n]])[..|init|] == init && init + [] == init;
      assert LevelsOf(init, side) + [] == LevelsOf(init, side);
    }
  }

  lemma GatheredStep(events: seq<BookEvent>, ts: U64, mode: ReplayMode, reset: Option<U64>)
    requires |events| > 0
    ensures var n := |events| - 1;
            var e := events[n];
            Gathered(events, ts, mode, reset) == Gathered(events[..n], ts, mode, reset)
              + if e.kind == Snapshot && EventTs(e, mode) == ts
                && (reset.None? || e.provenance.recvTimestampUs >= reset.value)
                then [e] else []
  {
  }

  /**
   Without a checkpoint that counts, replay starts behind the last eligible snapshot event, from exactly the levels
   of all eligible snapshot events of its time, later ones winning; with no eligible one there is nothing to
   start from, and levels whose totals do not fit fail the replay.
   */
  lemma StartsAtSnapshot(events: seq<BookEvent>, target: U64, mode: ReplayMode, checkpoint: Option<BookCheckpoint>,
                         reset: Option<U64>)
    requires !Counts(checkpoint, reset)
    ensures var start := Start(events, target, mode, checkpoint, reset);
            && ((exists k :: IsLastEligible(events, target, mode, reset, k)) <==> start != Err(NoSnapshotFound))
            && forall k: nat | IsLastEligible(events, target, mode, reset, k) ::
                 var ts := Clock(events[k], mode);
                 var bids, asks := LevelsAt(events, Bid, ts, target, mode, reset),
                                   LevelsAt(events, Ask, ts, target, mode, reset);
                 if PrefixesFit(bids) && PrefixesFit(asks) then
                   && start.Ok? && start.value.1 == k + 1
                   && start.value.0.bids == LastWins(bids) && start.value.0.asks == LastWins(asks)
                   && start.value.0.lastUpdateUs == ts
                 else start.Err? && start.error.BookFailure?
  {
    hide PrefixesFit, LastWins, LevelsOf, LevelsAt, Gathered, EventTs, Clock;
    forall e: BookEvent ensures EventTs(e, mode) == Clock(e, mode) {
      ClockIs(e, mode);
    }
    var idx := LastSeekable(events, |events|, target, mode, reset);
    if idx.Some? {
      var k, ts := idx.value, Clock(events[idx.value], mode);
      assert IsLastEligible(events, target, mode, reset, k);
      GatheredLevels(events, Bid, ts, target, mode, reset);
      GatheredLevels(events, Ask, ts, target, mode, reset);
    }
  }
}
