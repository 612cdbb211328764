/**
 The replay engine: rebuilding a book at a target time from a window of events, seeking to the last
 snapshot or checkpoint instead of folding the whole history.
 */
module Replay {
  import opened Types
  import opened OrderBook
  import opened EventOrder

  datatype Window = Window(bookEvents: seq<BookEvent>, ingestEvents: seq<IngestEvent>)

  datatype ReplayError = NoSnapshotFound | BookFailure(error: BookError)

  /** `notices` are the continuity events the replay itself adds. */
  datatype Replayed = Replayed(book: Book, notices: seq<IngestEvent>, usedCheckpoint: bool)

  // ---------------------------------------------------------------------------------------------
  // Grouped snapshot events
  // ---------------------------------------------------------------------------------------------

  /** The levels of one side, in event order. */
  function LevelsOf(events: seq<BookEvent>, side: Side): seq<Level> {
    if |events| == 0 then []
    else
      var e := events[|events| - 1];
      LevelsOf(events[..|events| - 1], side) + if e.side == side then [Level(e.price, e.size)] else []
  }

  function LastSequence(events: seq<BookEvent>): U64 {
    if |events| == 0 then 0 else SequenceOf(events[|events| - 1].provenance)
  }

  function ApplySnapshotEvents(events: seq<BookEvent>, ts: U64): Result<Book, BookError> {
    ApplySnapshot(LevelsOf(events, Bid), LevelsOf(events, Ask), LastSequence(events), ts)
  }

  function ApplyDeltaEvent(b: Book, e: BookEvent, ts: U64): Result<Book, BookError> {
    ApplyDelta(b, e.side, e.price, e.size, SequenceOf(e.provenance), ts)
  }

  predicate SnapshotAt(e: BookEvent, ts: int, mode: ReplayMode) {
    e.kind == Snapshot && EventTs(e, mode) == ts
  }

  /** Where the run of adjacent snapshot events at time `ts` that starts at `idx` ends. */
  function RunEnd(events: seq<BookEvent>, idx: nat, ts: int, mode: ReplayMode): (end: nat)
    requires idx <= |events|
    ensures idx <= end <= |events|
    ensures idx < |events| && SnapshotAt(events[idx], ts, mode) ==> idx < end
    decreases |events| - idx
  {
    if idx < |events| && SnapshotAt(events[idx], ts, mode) then RunEnd(events, idx + 1, ts, mode) else idx
  }

  // ---------------------------------------------------------------------------------------------
  // The replay loop
  // ---------------------------------------------------------------------------------------------

  datatype Outcome = Done(book: Book, notices: seq<IngestEvent>) | Failed(error: BookError) {
    function Prepend(earlier: seq<IngestEvent>): Outcome {
      match this
      case Done(b, n) => Done(b, earlier + n)
      case Failed(e) => Failed(e)
    }
  }

  function GapNotices(asset: Asset, b: Book, e: BookEvent): seq<IngestEvent> {
    if CheckSequence(b, SequenceOf(e.provenance)).Ok? then []
    else [IngestEvent(Some(asset), SequenceGap, e.provenance.(ingestOrdinal := None),
                      Some((b.sequence + 1) % U64_LIMIT), Some(SequenceOf(e.provenance)))]
  }

  function RejectedNotice(asset: Asset, e: BookEvent): IngestEvent {
    IngestEvent(Some(asset), SourceReset, e.provenance.(ingestOrdinal := None), None, None)
  }

  /** What the loop makes of the events from `idx` on, up to the target time. */
  function ReplayFrom(asset: Asset, events: seq<BookEvent>, idx: nat, target: U64, mode: ReplayMode, b: Book): Outcome
    requires idx <= |events|
    decreases |events| - idx
  {
    if idx == |events| then Done(b, [])
    else
      var e := events[idx];
      var ts := EventTs(e, mode);
      if ts > target then Done(b, [])
      else match e.kind
        case Snapshot =>
          var end := RunEnd(events, idx, ts, mode);
          var r := ApplySnapshotEvents(events[idx..end], ts);
          if r.Err? then Failed(r.error) else ReplayFrom(asset, events, end, target, mode, r.value)
        case Delta =>
          var gaps := GapNotices(asset, b, e);
          var r := ApplyDeltaEvent(b, e, ts);
          if r.Err? then Done(b, gaps + [RejectedNotice(asset, e)])
          else ReplayFrom(asset, events, idx + 1, target, mode, r.value).Prepend(gaps)
  }

  // ---------------------------------------------------------------------------------------------
  // Where replay starts
  // ---------------------------------------------------------------------------------------------

  function MaxReset(a: Option<U64>, b: U64): Option<U64> {
    if a.Some? && a.value >= b then a else Some(b)
  }

  /** Receive time of the latest continuity reset at or before the target. */
  function LatestReset(ingest: seq<IngestEvent>, target: U64): Option<U64> {
    if |ingest| == 0 then None
    else
      var e, rest := ingest[|ingest| - 1], LatestReset(ingest[..|ingest| - 1], target);
      if e.kind.IsContinuityReset() && e.provenance.recvTimestampUs <= target
      then MaxReset(rest, e.provenance.recvTimestampUs) else rest
  }

  predicate AtOrAfter(ts: int, reset: Option<U64>) {
    reset.Some? ==> ts >= reset.value
  }

  predicate Seekable(e: BookEvent, target: int, mode: ReplayMode, reset: Option<U64>) {
    e.kind == Snapshot && EventTs(e, mode) <= target && AtOrAfter(e.provenance.recvTimestampUs, reset)
  }

  /** The last seekable snapshot event among the first `n`. */
  function LastSeekable(events: seq<BookEvent>, n: nat, target: int, mode: ReplayMode,
                        reset: Option<U64>): (r: Option<nat>)
    requires n <= |events|
    ensures r.Some? ==> r.value < n && Seekable(events[r.value], target, mode, reset)
    ensures forall i | 0 <= i < n && Seekable(events[i], target, mode, reset) :: r.Some? && i <= r.value
  {
    if n == 0 then None
    else if Seekable(events[n - 1], target, mode, reset) then Some(n - 1)
    else LastSeekable(events, n - 1, target, mode, reset)
  }

  /** The first index from `i` on whose event is later than the boundary. */
  function FirstAfter(events: seq<BookEvent>, i: nat, boundary: int, mode: ReplayMode): (r: nat)
    requires i <= |events|
    ensures i <= r <= |events|
    ensures forall j | i <= j < r :: EventTs(events[j], mode) <= boundary
    ensures r < |events| ==> EventTs(events[r], mode) > boundary
    decreases |events| - i
  {
    if i == |events| || EventTs(events[i], mode) > boundary then i else FirstAfter(events, i + 1, boundary, mode)
  }

  function CheckpointTs(c: BookCheckpoint, mode: ReplayMode): U64 {
    match mode
    case RecvTime => c.provenance.recvTimestampUs
    case ExchangeTime =>
      if c.provenance.exchangeTimestampUs != 0 then c.provenance.exchangeTimestampUs else c.checkpointTimestampUs
  }

  function ApplyCheckpoint(c: BookCheckpoint, mode: ReplayMode): Result<Book, BookError> {
    ApplySnapshot(c.bids, c.asks, 0, CheckpointTs(c, mode))
  }

  /** The snapshot events seeking gathers: all at the chosen time, on this side of the reset. */
  function Gathered(events: seq<BookEvent>, ts: U64, mode: ReplayMode, reset: Option<U64>): seq<BookEvent> {
    Filter(events, (e: BookEvent) => SnapshotAt(e, ts, mode) && AtOrAfter(e.provenance.recvTimestampUs, reset))
  }

  function KeptCheckpoint(checkpoint: Option<BookCheckpoint>, reset: Option<U64>): Option<BookCheckpoint> {
    if checkpoint.Some? && AtOrAfter(checkpoint.value.provenance.recvTimestampUs, reset) then checkpoint else None
  }

  /** Starting book and index: after a usable checkpoint, or after the last seekable snapshot. */
  function Start(events: seq<BookEvent>, target: U64, mode: ReplayMode, checkpoint: Option<BookCheckpoint>,
                 reset: Option<U64>)
    : (r: Result<(Book, nat), ReplayError>)
    ensures r.Ok? ==> r.value.1 <= |events|
  {
    var kept := KeptCheckpoint(checkpoint, reset);
    if kept.Some? then
      var b := ApplyCheckpoint(kept.value, mode);
      if b.Err? then Err(BookFailure(b.error))
      else Ok((b.value, FirstAfter(events, 0, CheckpointTs(kept.value, mode), mode)))
    else
      var idx := LastSeekable(events, |events|, target, mode, reset);
      if idx.None? then Err(NoSnapshotFound)
      else
        var ts := EventTs(events[idx.value], mode);
        var b := ApplySnapshotEvents(Gathered(events, ts, mode, reset), ts);
        if b.Err? then Err(BookFailure(b.error)) else Ok((b.value, idx.value + 1))
  }

  function CrossedNotices(asset: Asset, b: Book): seq<IngestEvent> {
    if CheckIntegrity(b).Ok? then []
    else [IngestEvent(Some(asset), SourceReset,
                      EventProvenance(b.lastUpdateUs, 0, ReplayValidator, None, None, None, None), None, None)]
  }

  /** The loop's outcome as a result: a crossed book is noted, a failed snapshot is an error. */
  function Concluded(asset: Asset, o: Outcome, usedCheckpoint: bool): Result<Replayed, ReplayError> {
    match o
    case Failed(error) => Err(BookFailure(error))
    case Done(b, notices) => Ok(Replayed(b, notices + CrossedNotices(asset, b), usedCheckpoint))
  }

  function Reconstruct(asset: Asset, target: U64, mode: ReplayMode, checkpoint: Option<BookCheckpoint>, window: Window)
    : Result<Replayed, ReplayError>
  {
    var events := SortEvents(window.bookEvents, mode);
    var reset := LatestReset(window.ingestEvents, target);
    var start := Start(events, target, mode, checkpoint, reset);
    if start.Err? then Err(start.error)
    else
      var outcome := ReplayFrom(asset, events, start.value.1, target, mode, start.value.0);
      Concluded(asset, outcome, KeptCheckpoint(checkpoint, reset).Some?)
  }

  // ---------------------------------------------------------------------------------------------
  // The engine itself
  // ---------------------------------------------------------------------------------------------

  method ReplaySnapshotEvents(book: L2Book, events: seq<BookEvent>, ts: U64) returns (r: Result<(), BookError>)
    requires book.Valid()
    modifies book
    ensures book.Valid()
    ensures r.Ok? ==> ApplySnapshotEvents(events, ts) == Ok(book.Value())
    ensures r.Err? ==> ApplySnapshotEvents(events, ts) == Err(r.error) && book.Value() == old(book.Value())
  {
    var bids, asks, sequence: U64 := [], [], 0;
    for i := 0 to |events|
      invariant bids == LevelsOf(events[..i], Bid) && asks == LevelsOf(events[..i], Ask)
      invariant sequence == LastSequence(events[..i])
    {
      var e := events[i];
      assert events[..i + 1][..i] == events[..i];
      sequence := SequenceOf(e.provenance);
      match e.side {
        case Bid => bids := bids + [Level(e.price, e.size)];
        case Ask => asks := asks + [Level(e.price, e.size)];
      }
    }
    assert events[..|events|] == events;
    r := book.TryApplySnapshot(bids, asks, sequence, ts);
  }

  /** Chooses the starting point and puts the book there. */
  method Seed(book: L2Book, events: seq<BookEvent>, target: U64, mode: ReplayMode,
              checkpoint: Option<BookCheckpoint>, reset: Option<U64>) returns (r: Result<nat, ReplayError>)
    requires book.Valid()
    modifies book
    ensures book.Valid()
    ensures r.Ok? ==> Start(events, target, mode, checkpoint, reset) == Ok((book.Value(), r.value))
    ensures r.Err? ==> Start(events, target, mode, checkpoint, reset) == Err(r.error)
  {
    var kept := KeptCheckpoint(checkpoint, reset);
    if kept.Some? {
      var c := kept.value;
      var applied := book.TryApplySnapshot(c.bids, c.asks, 0, CheckpointTs(c, mode));
      if applied.Err? {
        return Err(BookFailure(applied.error));
      }
      return Ok(FirstAfter(events, 0, CheckpointTs(c, mode), mode));
    }
    var idx := LastSeekable(events, |events|, target, mode, reset);
    if idx.None? {
      return Err(NoSnapshotFound);
    }
    var ts := EventTs(events[idx.value], mode);
    var applied := ReplaySnapshotEvents(book, Gathered(events, ts, mode, reset), ts);
    if applied.Err? {
      return Err(BookFailure(applied.error));
    }
    return Ok(idx.value + 1);
  }

  /** Replays events one by one, or one snapshot group at a time, until the target time. */
  method RunLoop(book: L2Book, asset: Asset, events: seq<BookEvent>, start: nat, target: U64, mode: ReplayMode)
    returns (r: Outcome)
    requires book.Valid() && start <= |events|
    modifies book
    ensures r == ReplayFrom(asset, events, start, target, mode, old(book.Value()))
  {
    hide ApplySnapshotEvents, ApplyDeltaEvent, GapNotices, RejectedNotice, WellFormed;
    var idx, notices := start, [];
    ghost var expected := ReplayFrom(asset, events, start, target, mode, book.Value());
    while idx < |events| && EventTs(events[idx], mode) <= target
      invariant idx <= |events| && book.Valid()
      invariant ReplayFrom(asset, events, idx, target, mode, book.Value()).Prepend(notices) == expected
      decreases |events| - idx
    {
      var e := events[idx];
      var ts := EventTs(e, mode);
      match e.kind {
        case Snapshot =>
          var end := RunEnd(events, idx, ts, mode);
          var applied := ReplaySnapshotEvents(book, events[idx..end], ts);
          if applied.Err? {
            return Failed(applied.error);
          }
          idx := end;
        case Delta =>
          var gaps := GapNotices(asset, book.Value(), e);
          var applied := ReplayDeltaEvent(book, e, ts);
          if applied.Err? {
            assert notices + (gaps + [RejectedNotice(asset, e)]) == notices + gaps + [RejectedNotice(asset, e)];
            return Done(book.Value(), notices + gaps + [RejectedNotice(asset, e)]);
          }
          idx := idx + 1;
          PrependTwice(ReplayFrom(asset, events, idx, target, mode, book.Value()), gaps, notices);
          notices := notices + gaps;
      }
    }
    assert notices + [] == notices;
    return Done(book.Value(), notices);
  }

  method ReplayDeltaEvent(book: L2Book, e: BookEvent, ts: U64) returns (r: Result<(), BookError>)
    requires book.Valid()
    modifies book
    ensures book.Valid()
    ensures r.Ok? ==> ApplyDeltaEvent(old(book.Value()), e, ts) == Ok(book.Value())
    ensures r.Err? ==> ApplyDeltaEvent(old(book.Value()), e, ts) == Err(r.error) && book.Value() == old(book.Value())
  {
    r := book.TryApplyDelta(e.side, e.price, e.size, SequenceOf(e.provenance), ts);
  }

  /** Sorts, seeds and replays; the result is the one `Reconstruct` denotes. */
  method ReconstructBook(asset: Asset, target: U64, mode: ReplayMode, checkpoint: Option<BookCheckpoint>,
                         window: Window)
    returns (r: Result<Replayed, ReplayError>)
    ensures r == Reconstruct(asset, target, mode, checkpoint, window)
  {
    hide ReplayFrom, Start, SortEvents, LatestReset;
    var events := SortEvents(window.bookEvents, mode);
    var reset := LatestReset(window.ingestEvents, target);
    var book := new L2Book();
    var seeded := Seed(book, events, target, mode, checkpoint, reset);
    if seeded.Err? {
      return Err(seeded.error);
    }
    var outcome := RunLoop(book, asset, events, seeded.value, target, mode);
    match outcome {
      case Failed(error) => return Err(BookFailure(error));
      case Done(b, notices) =>
        return Ok(Replayed(b, notices + CrossedNotices(asset, b), KeptCheckpoint(checkpoint, reset).Some?));
    }
  }

  lemma PrependTwice(o: Outcome, later: seq<IngestEvent>, earlier: seq<IngestEvent>)
    ensures o.Prepend(later).Prepend(earlier) == o.Prepend(earlier + later)
  {
    if o.Done? {
      assert earlier + (later + o.notices) == earlier + later + o.notices;
    }
  }
}
