/** Which sequence gaps replay reports: exactly the breaks in the numbering of the events it replays. */
module SequenceGaps {
  import opened Types
  import opened OrderBook
  import opened EventOrder
  import opened Replay
  import opened ReplayTheorems

  // ---------------------------------------------------------------------------------------------
  // Gaps, read off the events
  // ---------------------------------------------------------------------------------------------

  /** The number is one more than the previous one, wrapping at 64 bits; nothing precedes the first. */
  predicate Consecutive(previous: Option<U64>, n: U64) {
    previous.Some? ==> n == if previous.value == U64_LIMIT - 1 then 0 else previous.value + 1
  }

  function NumberOf(e: BookEvent): U64 {
    if e.provenance.sequence.Some? then e.provenance.sequence.value else 0
  }

  /** The notice of a break between two numbers: what was expected and what was seen. */
  function Gap(asset: Asset, previous: U64, e: BookEvent): IngestEvent {
    IngestEvent(Some(asset), SequenceGap, e.provenance.(ingestOrdinal := None),
                Some(if previous == U64_LIMIT - 1 then 0 else previous + 1), Some(NumberOf(e)))
  }

  /** One notice, in event order, for each delta among these events that does not continue the numbering. */
  function Gaps(asset: Asset, events: seq<BookEvent>, i: nat, n: nat, previous: Option<U64>): seq<IngestEvent>
    requires i <= n <= |events|
    decreases n - i
  {
    if i == n then []
    else
      var e := events[i];
      (if e.kind == Delta && !Consecutive(previous, NumberOf(e)) then [Gap(asset, previous.value, e)] else [])
      + Gaps(asset, events, i + 1, n, Some(NumberOf(e)))
  }

  /** The number of the last event that the book has seen. */
  function Seen(b: Book): Option<U64> {
    if b.seqInitialized then Some(b.sequence) else None
  }

  // ---------------------------------------------------------------------------------------------
  // The loop reports them
  // ---------------------------------------------------------------------------------------------

  lemma OneDelta(asset: Asset, b: Book, e: BookEvent)
    ensures GapNotices(asset, b, e)
            == if Consecutive(Seen(b), NumberOf(e)) then [] else [Gap(asset, Seen(b).value, e)]
  {
  }

  lemma SeenAfterDelta(b: Book, e: BookEvent, ts: U64)
    requires ApplyDeltaEvent(b, e, ts).Ok?
    ensures Seen(ApplyDeltaEvent(b, e, ts).value) == Some(NumberOf(e))
  {
    hide Fits;
  }

  lemma SeenAfterRun(events: seq<BookEvent>, ts: U64)
    requires |events| > 0 && ApplySnapshotEvents(events, ts).Ok?
    ensures Seen(ApplySnapshotEvents(events, ts).value) == Some(NumberOf(events[|events| - 1]))
  {
    hide LevelsOf, PrefixesFit, LastWins;
  }

  /** Snapshot events are no gaps, and the last one sets the number. */
  lemma {:induction false} GapsOverRun(asset: Asset, events: seq<BookEvent>, i: nat, end: nat, n: nat,
                                       previous: Option<U64>)
    requires i < end <= n <= |events| && forall j | i <= j < end :: events[j].kind == Snapshot
    ensures Gaps(asset, events, i, n, previous) == Gaps(asset, events, end, n, Some(NumberOf(events[end - 1])))
    decreases end - i
  {
    hide Consecutive, NumberOf;
    if i + 1 < end {
      GapsOverRun(asset, events, i + 1, end, n, Some(NumberOf(events[i])));
    }
  }

  lemma {:induction false} RunEndsAt(events: seq<BookEvent>, idx: nat, ts: int, target: U64, mode: ReplayMode)
    requires idx <= |events| && ts <= target
    ensures var end := RunEnd(events, idx, ts, mode);
            && (forall j | idx <= j < end :: events[j].kind == Snapshot)
            && FirstAfter(events, idx, target, mode) == FirstAfter(events, end, target, mode)
    decreases |events| - idx
  {
    hide EventTs;
    if idx < |events| && SnapshotAt(events[idx], ts, mode) {
      RunEndsAt(events, idx + 1, ts, target, mode);
    }
  }

  /** Taking the delta would make its side's total exceed 64 bits. */
  predicate Overflows(b: Book, e: BookEvent) {
    Total(WithLevel(if e.side == Bid then b.bids else b.asks, e.price, e.size)) >= U64_LIMIT
  }

  /** The reset a rejected delta leaves. */
  function Rejection(asset: Asset, e: BookEvent): IngestEvent {
    var p := e.provenance;
    IngestEvent(Some(asset), SourceReset, EventProvenance(p.recvTimestampUs, p.exchangeTimestampUs, p.source,
                                                          p.sourceEventId, p.sourceSessionId, p.sequence, None),
                None, None)
  }

  /** The gaps among `events[i..m]`, and the rejection of the last of them, if it was rejected. */
  function Reported(asset: Asset, events: seq<BookEvent>, i: nat, m: nat, previous: Option<U64>, rejected: bool)
    : seq<IngestEvent>
    requires i <= m <= |events| && (rejected ==> m > 0)
  {
    Gaps(asset, events, i, m, previous) + if rejected then [Rejection(asset, events[m - 1])] else []
  }

  lemma ReportedStep(asset: Asset, events: seq<BookEvent>, i: nat, m: nat, b: Book, rejected: bool)
    requires i < m <= |events| && events[i].kind == Delta
    ensures Reported(asset, events, i, m, Seen(b), rejected)
            == GapNotices(asset, b, events[i]) + Reported(asset, events, i + 1, m, Some(NumberOf(events[i])), rejected)
  {
    hide Consecutive, NumberOf, Seen, GapNotices, Gap, Rejection;
    OneDelta(asset, b, events[i]);
  }

  /**
   The loop reports exactly the gaps up to the target, in event order; if a delta is rejected, because its side's
   total would not fit, exactly those up to it, and then the rejection.
   */
  ghost predicate ReportsGaps(asset: Asset, events: seq<BookEvent>, idx: nat, target: U64, mode: ReplayMode, b: Book,
                              m: nat, rejected: bool)
  {
    && idx <= m <= |events| && m <= FirstAfter(events, idx, target, mode)
    && var o := ReplayFrom(asset, events, idx, target, mode, b);
       && o.Done?
       && (if rejected then idx < m && events[m - 1].kind == Delta && Overflows(o.book, events[m - 1])
           else m == FirstAfter(events, idx, target, mode))
       && o.notices == Reported(asset, events, idx, m, Seen(b), rejected)
  }

  lemma ReportedAfterRun(asset: Asset, events: seq<BookEvent>, idx: nat, target: U64, mode: ReplayMode, b: Book, m: nat,
                         rejected: bool)
    requires idx < |events| && EventTs(events[idx], mode) <= target && events[idx].kind == Snapshot
    requires var ts := EventTs(events[idx], mode);
             var end := RunEnd(events, idx, ts, mode);
             var r := ApplySnapshotEvents(events[idx..end], ts);
             r.Ok? && ReportsGaps(asset, events, end, target, mode, r.value, m, rejected)
    ensures ReportsGaps(asset, events, idx, target, mode, b, m, rejected)
  {
    hide ApplySnapshotEvents, EventTs, Seen, NumberOf, RunEnd, Reported, Overflows, ReplayFrom, FirstAfter;
    var ts := EventTs(events[idx], mode);
    var end := RunEnd(events, idx, ts, mode);
    RunInLoop(asset, events, idx, target, mode, b);
    RunEndsAt(events, idx, ts, target, mode);
    SeenAfterRun(events[idx..end], ts);
    ReportedOverRun(asset, events, idx, end, m, Seen(b), rejected);
  }

  lemma RunInLoop(asset: Asset, events: seq<BookEvent>, idx: nat, target: U64, mode: ReplayMode, b: Book)
    requires idx < |events| && EventTs(events[idx], mode) <= target && events[idx].kind == Snapshot
    ensures var ts := EventTs(events[idx], mode);
            var end := RunEnd(events, idx, ts, mode);
            var r := ApplySnapshotEvents(events[idx..end], ts);
            r.Ok? ==> ReplayFrom(asset, events, idx, target, mode, b)
                      == ReplayFrom(asset, events, end, target, mode, r.value)
  {
    hide ApplySnapshotEvents, EventTs, RunEnd;
  }

  lemma ReportedAfterDelta(asset: Asset, events: seq<BookEvent>, idx: nat, target: U64, mode: ReplayMode, b: Book,
                           m: nat, rejected: bool)
    requires idx < |events| && EventTs(events[idx], mode) <= target && events[idx].kind == Delta
    requires var r := ApplyDeltaEvent(b, events[idx], EventTs(events[idx], mode));
             r.Ok? && ReportsGaps(asset, events, idx + 1, target, mode, r.value, m, rejected)
    ensures ReportsGaps(asset, events, idx, target, mode, b, m, rejected)
  {
    hide ApplyDeltaEvent, GapNotices, EventTs, Seen, NumberOf, Reported, Overflows;
    SeenAfterDelta(b, events[idx], EventTs(events[idx], mode));
    ReportedStep(asset, events, idx, m, b, rejected);
  }

  lemma ReportedAtRejection(asset: Asset, events: seq<BookEvent>, idx: nat, target: U64, mode: ReplayMode, b: Book)
    requires idx < |events| && EventTs(events[idx], mode) <= target && events[idx].kind == Delta
    requires ApplyDeltaEvent(b, events[idx], EventTs(events[idx], mode)).Err?
    ensures ReportsGaps(asset, events, idx, target, mode, b, idx + 1, true)
  {
    hide ApplyDeltaEvent, GapNotices, EventTs, Seen, NumberOf, Reported, Overflows;
    OverflowsIff(b, events[idx], EventTs(events[idx], mode));
    ReportedStep(asset, events, idx, idx + 1, b, true);
    OnlyRejection(asset, events, idx + 1, Some(NumberOf(events[idx])));
  }

  lemma {:induction false} LoopReportsGaps(asset: Asset, events: seq<BookEvent>, idx: nat, target: U64,
                                           mode: ReplayMode, b: Book)
    returns (m: nat, rejected: bool)
    requires idx <= |events| && ReplayFrom(asset, events, idx, target, mode, b).Done?
    ensures ReportsGaps(asset, events, idx, target, mode, b, m, rejected)
    decreases |events| - idx
  {
    hide ApplySnapshotEvents, ApplyDeltaEvent, GapNotices, EventTs, Seen, RunEnd, Reported, Overflows, ReportsGaps;
    m, rejected := idx, false;
    if idx < |events| && EventTs(events[idx], mode) <= target {
      var ts := EventTs(events[idx], mode);
      if events[idx].kind == Snapshot {
        var end := RunEnd(events, idx, ts, mode);
        m, rejected := LoopReportsGaps(asset, events, end, target, mode,
                                       ApplySnapshotEvents(events[idx..end], ts).value);
        ReportedAfterRun(asset, events, idx, target, mode, b, m, rejected);
      } else {
        var r := ApplyDeltaEvent(b, events[idx], ts);
        if r.Ok? {
          m, rejected := LoopReportsGaps(asset, events, idx + 1, target, mode, r.value);
          ReportedAfterDelta(asset, events, idx, target, mode, b, m, rejected);
        } else {
          m, rejected := idx + 1, true;
          ReportedAtRejection(asset, events, idx, target, mode, b);
        }
      }
    } else {
      NothingReported(asset, events, idx, target, mode, b);
    }
  }

  lemma OverflowsIff(b: Book, e: BookEvent, ts: U64)
    ensures ApplyDeltaEvent(b, e, ts).Err? <==> Overflows(b, e)
  {
    hide Total, WithLevel;
  }

  lemma ReportedOverRun(asset: Asset, events: seq<BookEvent>, i: nat, end: nat, m: nat, previous: Option<U64>,
                        rejected: bool)
    requires i < end <= m <= |events| && forall j | i <= j < end :: events[j].kind == Snapshot
    ensures Reported(asset, events, i, m, previous, rejected)
            == Reported(asset, events, end, m, Some(NumberOf(events[end - 1])), rejected)
  {
    hide NumberOf, Rejection;
    GapsOverRun(asset, events, i, end, m, previous);
  }

  lemma OnlyRejection(asset: Asset, events: seq<BookEvent>, m: nat, previous: Option<U64>)
    requires 0 < m <= |events|
    ensures Reported(asset, events, m, m, previous, true) == [RejectedNotice(asset, events[m - 1])]
  {
  }

  lemma NothingReported(asset: Asset, events: seq<BookEvent>, idx: nat, target: U64, mode: ReplayMode, b: Book)
    requires idx <= |events| && (idx < |events| ==> EventTs(events[idx], mode) > target)
    ensures ReportsGaps(asset, events, idx, target, mode, b, idx, false)
  {
    hide EventTs, Seen, Overflows;
  }

  /** No notice is a reset: nothing was rejected. */
  ghost predicate NoReset(notices: seq<IngestEvent>) {
    forall x <- notices :: x.kind != SourceReset
  }

  /** When nothing is rejected, the loop's notices are exactly the gaps among the events up to the target. */
  lemma LoopGapsExact(asset: Asset, events: seq<BookEvent>, idx: nat, target: U64, mode: ReplayMode, b: Book)
    requires idx <= |events|
    requires var o := ReplayFrom(asset, events, idx, target, mode, b); o.Done? && NoReset(o.notices)
    ensures ReplayFrom(asset, events, idx, target, mode, b).notices
            == Gaps(asset, events, idx, FirstAfter(events, idx, target, mode), Seen(b))
  {
    hide ReplayFrom, FirstAfter, Gaps, Seen;
    var m, rejected := LoopReportsGaps(asset, events, idx, target, mode, b);
    var notices := ReplayFrom(asset, events, idx, target, mode, b).notices;
    assert !rejected;
    assert Gaps(asset, events, idx, m, Seen(b)) + [] == Gaps(asset, events, idx, m, Seen(b));
  }

  /** The number before position `j` of a part that starts at `i`. */
  function NumberBefore(events: seq<BookEvent>, i: nat, previous: Option<U64>, j: nat): Option<U64>
    requires i <= j < |events|
  {
    if j == i then previous else Some(NumberOf(events[j - 1]))
  }

  /** Every delta in this part continues the numbering of the event before it. */
  ghost predicate Unbroken(events: seq<BookEvent>, i: nat, n: nat, previous: Option<U64>)
    requires i <= n <= |events|
  {
    forall j | i <= j < n && events[j].kind == Delta ::
      Consecutive(NumberBefore(events, i, previous, j), NumberOf(events[j]))
  }

  lemma {:induction false} NoGapsIff(asset: Asset, events: seq<BookEvent>, i: nat, n: nat, previous: Option<U64>)
    requires i <= n <= |events|
    ensures Gaps(asset, events, i, n, previous) == [] <==> Unbroken(events, i, n, previous)
    decreases n - i
  {
    hide Consecutive, NumberOf, Gap;
    if i < n {
      NoGapsIff(asset, events, i + 1, n, Some(NumberOf(events[i])));
      UnbrokenStep(events, i, n, previous);
    }
  }

  lemma UnbrokenStep(events: seq<BookEvent>, i: nat, n: nat, previous: Option<U64>)
    requires i < n <= |events|
    ensures Unbroken(events, i, n, previous) <==>
              && (events[i].kind == Delta ==> Consecutive(previous, NumberOf(events[i])))
              && Unbroken(events, i + 1, n, Some(NumberOf(events[i])))
  {
    hide Consecutive, NumberOf;
    var rest := Some(NumberOf(events[i]));
    assert NumberBefore(events, i, previous, i) == previous;
    forall j | i < j < n ensures NumberBefore(events, i, previous, j) == NumberBefore(events, i + 1, rest, j) {
    }
  }

  // ---------------------------------------------------------------------------------------------
  // The whole replay
  // ---------------------------------------------------------------------------------------------

  /** Where seeking starts, the book has seen the event before; after a checkpoint it has seen number zero. */
  lemma SeenAtStart(events: seq<BookEvent>, target: U64, mode: ReplayMode, checkpoint: Option<BookCheckpoint>,
                    reset: Option<U64>)
    requires Start(events, target, mode, checkpoint, reset).Ok?
    ensures var (b, i) := Start(events, target, mode, checkpoint, reset).value;
            if KeptCheckpoint(checkpoint, reset).Some? then Seen(b) == Some(0)
            else i > 0 && Seen(b) == Some(NumberOf(events[i - 1]))
  {
    hide PrefixesFit, LastWins, LevelsOf, EventTs, ApplySnapshotEvents, Filter;
    if KeptCheckpoint(checkpoint, reset).None? {
      var idx := LastSeekable(events, |events|, target, mode, reset).value;
      var ts := EventTs(events[idx], mode);
      LastGathered(events, idx, target, mode, reset);
      SeenAfterRun(Gathered(events, ts, mode, reset), ts);
    }
  }

  /** The last event that seeking gathers is the one it found. */
  lemma LastGathered(events: seq<BookEvent>, idx: nat, target: U64, mode: ReplayMode, reset: Option<U64>)
    requires LastSeekable(events, |events|, target, mode, reset) == Some(idx)
    ensures var g := Gathered(events, EventTs(events[idx], mode), mode, reset); |g| > 0 && g[|g| - 1] == events[idx]
  {
    hide EventTs, Filter, LastSeekable;
    var ts := EventTs(events[idx], mode);
    var keep := (e: BookEvent) => SnapshotAt(e, ts, mode) && AtOrAfter(e.provenance.recvTimestampUs, reset);
    assert events == events[..idx] + [events[idx]] + events[idx + 1..];
    FilterConcat(events[..idx] + [events[idx]], events[idx + 1..], keep);
    FilterPush(events[..idx], events[idx], keep);
    forall e <- events[idx + 1..] ensures !keep(e) {
      var i :| idx < i < |events| && events[i] == e;
      assert !Seekable(events[i], target, mode, reset);
    }
    NoneLeft(events[idx + 1..], keep);
  }

  /** The reset a crossed book leaves. */
  ghost function CrossedReset(asset: Asset, b: Book): seq<IngestEvent> {
    if Crossed(b)
    then [IngestEvent(Some(asset), SourceReset,
                      EventProvenance(b.lastUpdateUs, 0, ReplayValidator, None, None, None, None), None, None)]
    else []
  }

  lemma CrossedResetIs(asset: Asset, b: Book)
    ensures CrossedNotices(asset, b) == CrossedReset(asset, b)
  {
    hide CheckIntegrity;
    IntegrityMeansUncrossed(b);
  }

  /**
   What a replay reports: for each delta behind the start and up to the target whose
   number is not one more than that of the event before it, in event order, one gap with the two numbers. If a
   delta was rejected, because its side's total would not fit, the gaps up to it and a reset. And last a reset
   if the book is crossed.
   */
  lemma ReplayReportsGaps(asset: Asset, target: U64, mode: ReplayMode, checkpoint: Option<BookCheckpoint>,
                          window: Window)
    returns (m: nat, rejected: bool)
    requires Reconstruct(asset, target, mode, checkpoint, window).Ok?
    ensures var events, reset := SortEvents(window.bookEvents, mode), LatestReset(window.ingestEvents, target);
            var start := Start(events, target, mode, checkpoint, reset);
            && start.Ok?
            && var i := start.value.1;
               var previous := if KeptCheckpoint(checkpoint, reset).Some? then Some(0)
                               else if i > 0 then Some(NumberOf(events[i - 1])) else None;
               var r := Reconstruct(asset, target, mode, checkpoint, window).value;
               && i <= m <= FirstAfter(events, i, target, mode)
               && (if rejected then i < m && events[m - 1].kind == Delta && Overflows(r.book, events[m - 1])
                   else m == FirstAfter(events, i, target, mode))
               && r.notices == Reported(asset, events, i, m, previous, rejected) + CrossedReset(asset, r.book)
               && (r.usedCheckpoint <==> KeptCheckpoint(checkpoint, reset).Some?)
  {
    hide SortEvents, LatestReset, Start, ReplayFrom, FirstAfter, Reported, CrossedNotices, Seen, NumberOf,
      KeptCheckpoint, CrossedReset, Overflows;
    var events, reset := SortEvents(window.bookEvents, mode), LatestReset(window.ingestEvents, target);
    var start := Start(events, target, mode, checkpoint, reset);
    SeenAtStart(events, target, mode, checkpoint, reset);
    m, rejected := LoopReportsGaps(asset, events, start.value.1, target, mode, start.value.0);
    CrossedResetIs(asset, Reconstruct(asset, target, mode, checkpoint, window).value.book);
  }

  /**
   A replay reports nothing at all if and only if no delta was rejected, no number is missing up to the target, and
   the book is not crossed.
   */
  lemma ReplayQuietIff(asset: Asset, target: U64, mode: ReplayMode, window: Window) returns (m: nat, rejected: bool)
    requires Reconstruct(asset, target, mode, None, window).Ok?
    ensures var events, reset := SortEvents(window.bookEvents, mode), LatestReset(window.ingestEvents, target);
            var start, r := Start(events, target, mode, None, reset),
                Reconstruct(asset, target, mode, None, window).value;
            && start.Ok? && 0 < start.value.1 <= m <= |events|
            && (if rejected then events[m - 1].kind == Delta && Overflows(r.book, events[m - 1])
                else m == FirstAfter(events, start.value.1, target, mode))
            && (r.notices == [] <==>
                  && !rejected && !Crossed(r.book)
                  && Unbroken(events, start.value.1, m, Some(NumberOf(events[start.value.1 - 1]))))
  {
    hide SortEvents, LatestReset, Start, ReplayFrom, FirstAfter, Gaps, CrossedReset, Seen, NumberOf, Unbroken,
      Reconstruct, Overflows, Crossed;
    var events, reset := SortEvents(window.bookEvents, mode), LatestReset(window.ingestEvents, target);
    m, rejected := ReplayReportsGaps(asset, target, mode, None, window);
    var start := Start(events, target, mode, None, reset).value;
    SeenAtStart(events, target, mode, None, reset);
    var r := Reconstruct(asset, target, mode, None, window).value;
    var previous := Some(NumberOf(events[start.1 - 1]));
    NoGapsIff(asset, events, start.1, m, previous);
    NoCrossedReset(asset, r.book);
  }

  lemma NoCrossedReset(asset: Asset, b: Book)
    ensures CrossedReset(asset, b) == [] <==> !Crossed(b)
  {
  }

  /** Two lost deltas: number 7 right after number 4 is a gap in which 5 was expected. */
  lemma LostDeltasReported(asset: Asset, snapshot: BookEvent, delta: BookEvent, target: U64, b: Book)
    requires snapshot.kind == Snapshot && delta.kind == Delta && NumberOf(snapshot) == 4 && NumberOf(delta) == 7
    requires EventTs(delta, RecvTime) <= target && b.seqInitialized && b.sequence == NumberOf(snapshot)
    requires ApplyDeltaEvent(b, delta, EventTs(delta, RecvTime)).Ok?
    ensures var o := ReplayFrom(asset, [snapshot, delta], 1, target, RecvTime, b);
            o.Done? && |o.notices| == 1 && o.notices[0].kind == SequenceGap
            && o.notices[0].expectedSequence == Some(5) && o.notices[0].observedSequence == Some(7)
  {
    hide ApplyDeltaEvent;
    var events := [snapshot, delta];
    var after := ApplyDeltaEvent(b, delta, EventTs(delta, RecvTime)).value;
    assert ReplayFrom(asset, events, 2, target, RecvTime, after) == Done(after, []);
  }
}
