/**
 What replay makes of the order in which a window was read. The comparator looks past the kind of an event
 and past some of its provenance; replay looks past the rest of the provenance only.
 */
module ReadOrder {
  import opened Types
  import opened OrderBook
  import opened EventOrder
  import opened Replay
  import opened ReplayTheorems

  // ---------------------------------------------------------------------------------------------
  // Events that replay reads alike
  // ---------------------------------------------------------------------------------------------

  predicate AlikeEvents(x: BookEvent, y: BookEvent, mode: ReplayMode) {
    && x.kind == y.kind && x.side == y.side && x.price == y.price && x.size == y.size
    && SequenceOf(x.provenance) == SequenceOf(y.provenance) && EventTs(x, mode) == EventTs(y, mode)
    && x.provenance.recvTimestampUs == y.provenance.recvTimestampUs
  }

  ghost predicate Alike(x: seq<BookEvent>, y: seq<BookEvent>, mode: ReplayMode) {
    |x| == |y| && forall i | 0 <= i < |x| :: AlikeEvents(x[i], y[i], mode)
  }

  lemma AlikeSlice(x: seq<BookEvent>, y: seq<BookEvent>, lo: nat, hi: nat, mode: ReplayMode)
    requires Alike(x, y, mode) && lo <= hi <= |x|
    ensures Alike(x[lo..hi], y[lo..hi], mode) && x[..hi] == x[0..hi] && y[..hi] == y[0..hi]
    ensures hi == |x| ==> x[lo..] == x[lo..hi] && y[lo..] == y[lo..hi]
  {
    hide AlikeEvents;
  }

  lemma {:induction false} LevelsAlike(x: seq<BookEvent>, y: seq<BookEvent>, side: Side, mode: ReplayMode)
    requires Alike(x, y, mode)
    ensures LevelsOf(x, side) == LevelsOf(y, side)
  {
    if |x| > 0 {
      hide EventTs;
      var n := |x| - 1;
      assert AlikeEvents(x[n], y[n], mode);
      LevelsAlike(x[..n], y[..n], side, mode);
    }
  }

  lemma SnapshotAlike(x: seq<BookEvent>, y: seq<BookEvent>, ts: U64, mode: ReplayMode)
    requires Alike(x, y, mode)
    ensures ApplySnapshotEvents(x, ts) == ApplySnapshotEvents(y, ts)
  {
    hide LevelsOf, ApplySnapshot, EventTs;
    LevelsAlike(x, y, Bid, mode);
    LevelsAlike(x, y, Ask, mode);
    assert |x| > 0 ==> AlikeEvents(x[|x| - 1], y[|y| - 1], mode);
  }

  lemma DeltaAlike(b: Book, e: BookEvent, f: BookEvent, mode: ReplayMode)
    requires AlikeEvents(e, f, mode)
    ensures ApplyDeltaEvent(b, e, EventTs(e, mode)) == ApplyDeltaEvent(b, f, EventTs(f, mode))
  {
    hide ApplyDelta, EventTs;
  }

  lemma {:induction false} RunEndAlike(x: seq<BookEvent>, y: seq<BookEvent>, idx: nat, ts: int, mode: ReplayMode)
    requires Alike(x, y, mode) && idx <= |x|
    ensures RunEnd(x, idx, ts, mode) == RunEnd(y, idx, ts, mode)
    decreases |x| - idx
  {
    hide EventTs;
    if idx < |x| {
      assert AlikeEvents(x[idx], y[idx], mode);
      RunEndAlike(x, y, idx + 1, ts, mode);
    }
  }

  lemma {:induction false} RunStartAlike(x: seq<BookEvent>, y: seq<BookEvent>, i: nat, mode: ReplayMode)
    requires Alike(x, y, mode) && i < |x| && x[i].kind == Snapshot
    ensures y[i].kind == Snapshot && RunStart(x, i, mode) == RunStart(y, i, mode)
  {
    hide EventTs;
    assert AlikeEvents(x[i], y[i], mode);
    if i > 0 {
      assert AlikeEvents(x[i - 1], y[i - 1], mode);
      if SameRun(x[i - 1], x[i], mode) {
        RunStartAlike(x, y, i - 1, mode);
      }
    }
  }

  lemma {:induction false} LastSeekableAlike(x: seq<BookEvent>, y: seq<BookEvent>, n: nat, target: int,
                                             mode: ReplayMode,
                                             reset: Option<U64>)
    requires Alike(x, y, mode) && n <= |x|
    ensures LastSeekable(x, n, target, mode, reset) == LastSeekable(y, n, target, mode, reset)
  {
    hide EventTs, AtOrAfter;
    if n > 0 {
      assert AlikeEvents(x[n - 1], y[n - 1], mode);
      LastSeekableAlike(x, y, n - 1, target, mode, reset);
    }
  }

  lemma {:induction false} FirstAfterAlike(x: seq<BookEvent>, y: seq<BookEvent>, i: nat, boundary: int,
                                           mode: ReplayMode)
    requires Alike(x, y, mode) && i <= |x|
    ensures FirstAfter(x, i, boundary, mode) == FirstAfter(y, i, boundary, mode)
    decreases |x| - i
  {
    hide EventTs;
    if i < |x| {
      assert AlikeEvents(x[i], y[i], mode);
      FirstAfterAlike(x, y, i + 1, boundary, mode);
    }
  }

  lemma AlikePush(x: seq<BookEvent>, y: seq<BookEvent>, e: BookEvent, f: BookEvent, mode: ReplayMode)
    requires Alike(x, y, mode) && AlikeEvents(e, f, mode)
    ensures Alike(x + [e], y + [f], mode)
  {
    hide AlikeEvents;
  }

  lemma {:induction false} FilterAlike(x: seq<BookEvent>, y: seq<BookEvent>, keep: BookEvent -> bool, mode: ReplayMode)
    requires Alike(x, y, mode) && forall e, f | AlikeEvents(e, f, mode) :: keep(e) == keep(f)
    ensures Alike(Filter(x, keep), Filter(y, keep), mode)
  {
    hide AlikeEvents;
    if |x| > 0 {
      var n := |x| - 1;
      FilterAlike(x[..n], y[..n], keep, mode);
      assert AlikeEvents(x[n], y[n], mode);
      AlikePush(Filter(x[..n], keep), Filter(y[..n], keep), x[n], y[n], mode);
      assert Filter(x[..n], keep) + [] == Filter(x[..n], keep) && Filter(y[..n], keep) + [] == Filter(y[..n], keep);
    }
  }

  lemma GatheredAlike(x: seq<BookEvent>, y: seq<BookEvent>, ts: U64, mode: ReplayMode, reset: Option<U64>)
    requires Alike(x, y, mode)
    ensures Alike(Gathered(x, ts, mode, reset), Gathered(y, ts, mode, reset), mode)
  {
    hide EventTs, Filter, Alike;
    FilterAlike(x, y, (e: BookEvent) => SnapshotAt(e, ts, mode)
                && AtOrAfter(e.provenance.recvTimestampUs, reset), mode);
  }

  /** Replay starts from the same book and index. */
  lemma StartAlike(x: seq<BookEvent>, y: seq<BookEvent>, target: U64, mode: ReplayMode,
                   checkpoint: Option<BookCheckpoint>, reset: Option<U64>)
    requires Alike(x, y, mode)
    ensures Start(x, target, mode, checkpoint, reset) == Start(y, target, mode, checkpoint, reset)
  {
    hide ApplySnapshotEvents, Gathered, EventTs, ApplyCheckpoint, CheckpointTs, AtOrAfter;
    var kept := KeptCheckpoint(checkpoint, reset);
    if kept.Some? {
      FirstAfterAlike(x, y, 0, CheckpointTs(kept.value, mode), mode);
    } else {
      LastSeekableAlike(x, y, |x|, target, mode, reset);
      var idx := LastSeekable(x, |x|, target, mode, reset);
      if idx.Some? {
        assert AlikeEvents(x[idx.value], y[idx.value], mode);
        GatheredAlike(x, y, EventTs(x[idx.value], mode), mode, reset);
        SnapshotAlike(Gathered(x, EventTs(x[idx.value], mode), mode, reset),
                      Gathered(y, EventTs(x[idx.value], mode), mode, reset), EventTs(x[idx.value], mode), mode);
      }
    }
  }

  /** The fold is the same. */
  lemma {:induction false} FoldAlike(start: Book, x: seq<BookEvent>, y: seq<BookEvent>, mode: ReplayMode)
    requires Alike(x, y, mode)
    ensures Fold(start, x, mode) == Fold(start, y, mode)
    decreases |x|
  {
    if |x| > 0 {
      hide Fold, Alike, EventTs, RunStart;
      var n := |x| - 1;
      if x[n].kind == Delta {
        AlikeSlice(x, y, 0, n, mode);
        FoldAlike(start, x[..n], y[..n], mode);
        LastDeltaAlike(start, x, y, mode);
      } else {
        var g := RunStart(x, n, mode);
        AlikeSlice(x, y, 0, g, mode);
        FoldAlike(start, x[..g], y[..g], mode);
        LastRunAlike(start, x, y, mode);
      }
    } else {
      assert |y| == 0;
    }
  }

  lemma LastAlike(x: seq<BookEvent>, y: seq<BookEvent>, mode: ReplayMode)
    requires Alike(x, y, mode) && |x| > 0
    ensures |x| == |y|
    ensures var e, f := x[|x| - 1], y[|y| - 1];
            AlikeEvents(e, f, mode) && e.kind == f.kind && EventTs(e, mode) == EventTs(f, mode)
  {
    hide EventTs;
    assert AlikeEvents(x[|x| - 1], y[|x| - 1], mode);
  }

  lemma LastDeltaAlike(start: Book, x: seq<BookEvent>, y: seq<BookEvent>, mode: ReplayMode)
    requires Alike(x, y, mode) && |x| > 0 && x[|x| - 1].kind == Delta
    requires Fold(start, x[..|x| - 1], mode) == Fold(start, y[..|x| - 1], mode)
    ensures Fold(start, x, mode) == Fold(start, y, mode)
  {
    hide Fold, ApplyDeltaEvent, EventTs, Alike, AlikeEvents;
    var n := |x| - 1;
    LastAlike(x, y, mode);
    FoldOfLastDelta(start, x[..n], x[n], mode);
    FoldOfLastDelta(start, y[..n], y[n], mode);
    assert x == x[..n] + [x[n]] && y == y[..n] + [y[n]];
    if Fold(start, x[..n], mode).Some? {
      DeltaAlike(Fold(start, x[..n], mode).value, x[n], y[n], mode);
    }
  }

  lemma LastRunAlike(start: Book, x: seq<BookEvent>, y: seq<BookEvent>, mode: ReplayMode)
    requires Alike(x, y, mode) && |x| > 0 && x[|x| - 1].kind == Snapshot
    requires var g := RunStart(x, |x| - 1, mode); Fold(start, x[..g], mode) == Fold(start, y[..g], mode)
    ensures Fold(start, x, mode) == Fold(start, y, mode)
  {
    hide *;
    var n := |x| - 1;
    LastAlike(x, y, mode);
    RunStartAlike(x, y, n, mode);
    var g := RunStart(x, n, mode);
    AlikeSlice(x, y, g, |x|, mode);
    SnapshotAlike(x[g..], y[g..], EventTs(x[n], mode), mode);
    FoldOfLastSnapshot(start, x, mode);
    FoldOfLastSnapshot(start, y, mode);
  }

  /** Notices that say the same, up to the provenance they carry. */
  ghost predicate SameNotices(a: seq<IngestEvent>, b: seq<IngestEvent>) {
    |a| == |b| && forall i | 0 <= i < |a| :: SameNotice(a[i], b[i])
  }

  predicate SameNotice(a: IngestEvent, b: IngestEvent) {
    && a.asset == b.asset && a.kind == b.kind
    && a.expectedSequence == b.expectedSequence && a.observedSequence == b.observedSequence
  }

  ghost predicate SameOutcome(a: Outcome, b: Outcome) {
    if a.Done? then b.Done? && a.book == b.book && SameNotices(a.notices, b.notices) else a == b
  }

  lemma PrependSame(a: Outcome, b: Outcome, x: seq<IngestEvent>, y: seq<IngestEvent>)
    requires SameOutcome(a, b) && SameNotices(x, y)
    ensures SameOutcome(a.Prepend(x), b.Prepend(y))
  {
    hide SameNotice;
  }

  lemma NoticesAlike(asset: Asset, b: Book, e: BookEvent, f: BookEvent, mode: ReplayMode)
    requires AlikeEvents(e, f, mode)
    ensures SameNotices(GapNotices(asset, b, e), GapNotices(asset, b, f))
    ensures SameNotices(GapNotices(asset, b, e) + [RejectedNotice(asset, e)], GapNotices(asset, b, f)
                        + [RejectedNotice(asset, f)])
  {
    hide EventTs;
  }

  /** The loop ends with the same book and the same notices. */
  lemma {:induction false} LoopAlike(asset: Asset, x: seq<BookEvent>, y: seq<BookEvent>, idx: nat, target: U64,
                                     mode: ReplayMode, b: Book)
    requires Alike(x, y, mode) && idx <= |x|
    ensures SameOutcome(ReplayFrom(asset, x, idx, target, mode, b), ReplayFrom(asset, y, idx, target, mode, b))
    decreases |x| - idx
  {
    hide ApplySnapshotEvents, ApplyDeltaEvent, GapNotices, RejectedNotice, RunEnd, EventTs, SameNotice, Outcome.Prepend;
    if idx < |x| {
      assert AlikeEvents(x[idx], y[idx], mode);
      var ts := EventTs(x[idx], mode);
      if ts <= target && x[idx].kind == Snapshot {
        RunEndAlike(x, y, idx, ts, mode);
        var end := RunEnd(x, idx, ts, mode);
        AlikeSlice(x, y, idx, end, mode);
        SnapshotAlike(x[idx..end], y[idx..end], ts, mode);
        var r := ApplySnapshotEvents(x[idx..end], ts);
        if r.Ok? {
          LoopAlike(asset, x, y, end, target, mode, r.value);
        }
      } else if ts <= target {
        DeltaAlike(b, x[idx], y[idx], mode);
        NoticesAlike(asset, b, x[idx], y[idx], mode);
        var r := ApplyDeltaEvent(b, x[idx], ts);
        if r.Ok? {
          LoopAlike(asset, x, y, idx + 1, target, mode, r.value);
          PrependSame(ReplayFrom(asset, x, idx + 1, target, mode, r.value),
                      ReplayFrom(asset, y, idx + 1, target, mode, r.value),
                      GapNotices(asset, b, x[idx]), GapNotices(asset, b, y[idx]));
        }
      }
    }
  }

  /** The two results have the same book and flag and say the same, or are the same error. */
  ghost predicate SameResult(a: Result<Replayed, ReplayError>, b: Result<Replayed, ReplayError>) {
    if a.Err? then b == a
    else && b.Ok? && a.value.book == b.value.book && a.value.usedCheckpoint == b.value.usedCheckpoint
         && SameNotices(a.value.notices, b.value.notices)
  }

  lemma ConcludedSame(asset: Asset, a: Outcome, b: Outcome, usedCheckpoint: bool)
    requires SameOutcome(a, b)
    ensures SameResult(Concluded(asset, a, usedCheckpoint), Concluded(asset, b, usedCheckpoint))
  {
    hide CrossedNotices;
  }

  lemma SortedAlike(asset: Asset, target: U64, mode: ReplayMode, checkpoint: Option<BookCheckpoint>, a: Window,
                    b: Window)
    requires Alike(SortEvents(a.bookEvents, mode), SortEvents(b.bookEvents, mode), mode)
    requires LatestReset(a.ingestEvents, target) == LatestReset(b.ingestEvents, target)
    ensures SameResult(Reconstruct(asset, target, mode, checkpoint, a), Reconstruct(asset, target, mode, checkpoint, b))
  {
    hide Start, ReplayFrom, LatestReset, SortEvents, Alike, KeptCheckpoint, Concluded;
    var x, y := SortEvents(a.bookEvents, mode), SortEvents(b.bookEvents, mode);
    var reset := LatestReset(a.ingestEvents, target);
    SameCount(x, y, mode);
    StartAlike(x, y, target, mode, checkpoint, reset);
    var start := Start(x, target, mode, checkpoint, reset);
    if start.Ok? {
      LoopAlike(asset, x, y, start.value.1, target, mode, start.value.0);
      ConcludedSame(asset, ReplayFrom(asset, x, start.value.1, target, mode, start.value.0),
                    ReplayFrom(asset, y, start.value.1, target, mode, start.value.0),
                    KeptCheckpoint(checkpoint, reset).Some?);
    }
  }

  lemma SameCount(x: seq<BookEvent>, y: seq<BookEvent>, mode: ReplayMode)
    requires Alike(x, y, mode)
    ensures |x| == |y|
  {
  }

  // ---------------------------------------------------------------------------------------------
  // What comparator and replay together look at
  // ---------------------------------------------------------------------------------------------

  /** The event without anything that neither the comparator nor replay looks at. */
  function Stripped(e: BookEvent, mode: ReplayMode): BookEvent {
    BookEvent("", e.kind, e.side, e.price, e.size,
              EventProvenance(e.provenance.recvTimestampUs, if mode == RecvTime then 0
                              else NormalizedExchangeTs(e), WebSocket,
                              e.provenance.sourceEventId, None, Some(SequenceOf(e.provenance)), Some(OrdinalOrMax(e))))
  }

  function AllStripped(s: seq<BookEvent>, mode: ReplayMode): seq<BookEvent> {
    seq(|s|, i requires 0 <= i < |s| => Stripped(s[i], mode))
  }

  lemma StrippedIsAlike(s: seq<BookEvent>, mode: ReplayMode)
    ensures Alike(AllStripped(s, mode), s, mode)
  {
  }

  lemma CompareStripped(a: BookEvent, b: BookEvent, mode: ReplayMode)
    ensures Compare(Stripped(a, mode), Stripped(b, mode), mode) == Compare(a, b, mode)
  {
    hide CompareId;
  }

  lemma {:induction false} EqualText(a: string, b: string)
    requires CompareText(a, b) == Equal
    ensures a == b
  {
    if |a| > 0 {
      EqualText(a[1..], b[1..]);
      assert a == [a[0]] + a[1..] && b == [b[0]] + b[1..];
    }
  }

  lemma EqualId(a: Option<string>, b: Option<string>)
    requires CompareId(a, b) == Equal
    ensures a == b
  {
    if a.Some? {
      EqualText(a.value, b.value);
    }
  }

  /** Events that compare equal differ, for replay, at most in their kind. */
  lemma TiesDifferInKindOnly(a: BookEvent, b: BookEvent, mode: ReplayMode)
    requires Compare(a, b, mode) == Equal
    ensures Stripped(a, mode) == Stripped(b, mode) <==> a.kind == b.kind
  {
    hide CompareId;
    EqualId(a.provenance.sourceEventId, b.provenance.sourceEventId);
  }

  lemma StrippedPush(s: seq<BookEvent>, e: BookEvent, mode: ReplayMode)
    ensures AllStripped(s + [e], mode) == AllStripped(s, mode) + [Stripped(e, mode)]
  {
    hide Stripped;
  }

  lemma StrippedConcat(a: seq<BookEvent>, b: seq<BookEvent>, mode: ReplayMode)
    ensures AllStripped(a + b, mode) == AllStripped(a, mode) + AllStripped(b, mode)
  {
    hide Stripped;
  }

  lemma {:induction false} InsertStripped(e: BookEvent, s: seq<BookEvent>, mode: ReplayMode)
    ensures AllStripped(Insert(e, s, mode), mode) == Insert(Stripped(e, mode), AllStripped(s, mode), mode)
  {
    hide Stripped, Compare;
    if |s| == 0 {
      StrippedPush(s, e, mode);
    } else {
      var n := |s| - 1;
      CompareStripped(s[n], e, mode);
      if Before(s[n], e, mode) {
        StrippedPush(s, e, mode);
      } else {
        InsertStripped(e, s[..n], mode);
        StrippedPush(Insert(e, s[..n], mode), s[n], mode);
        assert AllStripped(s, mode)[..n] == AllStripped(s[..n], mode);
      }
    }
  }

  /** Sorting does not look at what is stripped. */
  lemma {:induction false} SortStripped(s: seq<BookEvent>, mode: ReplayMode)
    ensures SortEvents(AllStripped(s, mode), mode) == AllStripped(SortEvents(s, mode), mode)
  {
    hide Stripped, Insert;
    if |s| > 0 {
      var n := |s| - 1;
      SortStripped(s[..n], mode);
      InsertStripped(s[n], SortEvents(s[..n], mode), mode);
      assert AllStripped(s, mode)[..n] == AllStripped(s[..n], mode);
    }
  }

  lemma StrippedWithout(t: seq<BookEvent>, i: nat, mode: ReplayMode)
    requires i < |t|
    ensures multiset(t) == multiset(t[..i] + t[i + 1..]) + multiset{t[i]}
    ensures multiset(AllStripped(t, mode))
            == multiset(AllStripped(t[..i] + t[i + 1..], mode)) + multiset{Stripped(t[i], mode)}
  {
    hide Stripped;
    assert t == t[..i] + [t[i]] + t[i + 1..];
    StrippedConcat(t[..i], t[i + 1..], mode);
    StrippedConcat(t[..i] + [t[i]], t[i + 1..], mode);
    StrippedPush(t[..i], t[i], mode);
  }

  lemma LessOne<T>(x: multiset<T>, y: multiset<T>, e: T)
    requires x + multiset{e} == y + multiset{e}
    ensures x == y
  {
    assert (x + multiset{e}) - multiset{e} == x && (y + multiset{e}) - multiset{e} == y;
  }

  lemma {:induction false} StrippedPermutation(s: seq<BookEvent>, t: seq<BookEvent>, mode: ReplayMode)
    requires multiset(s) == multiset(t)
    ensures multiset(AllStripped(s, mode)) == multiset(AllStripped(t, mode))
  {
    hide Stripped, AllStripped;
    assert |multiset(s)| == |multiset(t)|;
    if |s| > 0 {
      assert s[0] in multiset(t);
      var i :| 0 <= i < |t| && t[i] == s[0];
      StrippedWithout(s, 0, mode);
      StrippedWithout(t, i, mode);
      LessOne(multiset(s[..0] + s[1..]), multiset(t[..i] + t[i + 1..]), s[0]);
      StrippedPermutation(s[..0] + s[1..], t[..i] + t[i + 1..], mode);
    } else {
      assert s == t;
    }
  }

  lemma StrippedMember(s: seq<BookEvent>, x: BookEvent, mode: ReplayMode) returns (e: BookEvent)
    requires x in AllStripped(s, mode)
    ensures e in s && Stripped(e, mode) == x
  {
    hide Stripped;
    var i :| 0 <= i < |AllStripped(s, mode)| && AllStripped(s, mode)[i] == x;
    e := s[i];
  }

  // ---------------------------------------------------------------------------------------------
  // When the read order cannot matter to replay
  // ---------------------------------------------------------------------------------------------

  /** Events that compare equal are of one kind. */
  ghost predicate TiesShareKind(s: seq<BookEvent>, mode: ReplayMode) {
    forall a <- s, b <- s | Compare(a, b, mode) == Equal :: a.kind == b.kind
  }

  /** In whatever order the window is read, replay finds the same events in the same order. */
  ghost predicate SameReading(s: seq<BookEvent>, mode: ReplayMode) {
    forall t | multiset(t) == multiset(s) ::
           AllStripped(SortEvents(t, mode), mode) == AllStripped(SortEvents(s, mode), mode)
  }

  lemma StrippedTies(s: seq<BookEvent>, mode: ReplayMode)
    requires TiesShareKind(s, mode)
    ensures EqualMeansSame(AllStripped(s, mode), mode)
  {
    hide Compare, Stripped, AllStripped;
    forall x <- AllStripped(s, mode), y <- AllStripped(s, mode) | Compare(x, y, mode) == Equal ensures x == y {
      var a := StrippedMember(s, x, mode);
      var b := StrippedMember(s, y, mode);
      CompareStripped(a, b, mode);
      TiesDifferInKindOnly(a, b, mode);
    }
  }

  lemma SameReadingOfTies(s: seq<BookEvent>, t: seq<BookEvent>, mode: ReplayMode)
    requires TiesShareKind(s, mode) && multiset(t) == multiset(s)
    ensures AllStripped(SortEvents(t, mode), mode) == AllStripped(SortEvents(s, mode), mode)
  {
    hide Compare, Stripped, AllStripped, SortEvents, TiesShareKind, EqualMeansSame;
    StrippedTies(s, mode);
    OrderIrrelevantIff(AllStripped(s, mode), mode);
    StrippedPermutation(s, t, mode);
    SortStripped(s, mode);
    SortStripped(t, mode);
  }

  lemma SwappedKindsRead(a: BookEvent, b: BookEvent, rest: seq<BookEvent>, mode: ReplayMode)
    requires Compare(a, b, mode) == Equal && a.kind != b.kind
    ensures AllStripped(SortEvents([a, b] + rest, mode), mode) != AllStripped(SortEvents([b, a] + rest, mode), mode)
  {
    hide Compare, Stripped, SortEvents;
    var x, y := Stripped(a, mode), Stripped(b, mode);
    CompareStripped(a, b, mode);
    TiesDifferInKindOnly(a, b, mode);
    SwappedSortsDiffer(x, y, AllStripped(rest, mode), mode);
    StrippedConcat([a, b], rest, mode);
    StrippedConcat([b, a], rest, mode);
    assert AllStripped([a, b], mode) == [x, y] && AllStripped([b, a], mode) == [y, x];
    SortStripped([a, b] + rest, mode);
    SortStripped([b, a] + rest, mode);
  }

  /**
   Replay finds the same events in the same order, however the window was read, if and only if no two events
   of it that compare equal differ in kind: the comparator does not look at the kind.
   */
  lemma SameReadingIff(s: seq<BookEvent>, mode: ReplayMode)
    ensures SameReading(s, mode) <==> TiesShareKind(s, mode)
  {
    hide Compare, AllStripped, SortEvents;
    if TiesShareKind(s, mode) {
      forall t | multiset(t) == multiset(s)
        ensures AllStripped(SortEvents(t, mode), mode) == AllStripped(SortEvents(s, mode), mode)
      {
        SameReadingOfTies(s, t, mode);
      }
    } else {
      var a, b :| a in s && b in s && Compare(a, b, mode) == Equal && a.kind != b.kind;
      var rest := Without(s, a, b);
      SwappedKindsRead(a, b, rest, mode);
      assert multiset([a, b] + rest) == multiset(s) && multiset([b, a] + rest) == multiset(s);
    }
  }

  lemma AlikeThrough(x: seq<BookEvent>, y: seq<BookEvent>, mode: ReplayMode)
    requires AllStripped(x, mode) == AllStripped(y, mode)
    ensures Alike(x, y, mode)
  {
    hide Stripped, AlikeEvents;
    forall i | 0 <= i < |x| ensures |x| == |AllStripped(x, mode)| == |y| && AlikeEvents(x[i], y[i], mode) {
      assert AllStripped(x, mode)[i] == Stripped(x[i], mode) && AllStripped(y, mode)[i] == Stripped(y[i], mode);
      SameStrippedAlike(x[i], y[i], mode);
    }
    assert |x| == |AllStripped(x, mode)| == |AllStripped(y, mode)| == |y|;
  }

  lemma SameStrippedAlike(x: BookEvent, y: BookEvent, mode: ReplayMode)
    requires Stripped(x, mode) == Stripped(y, mode)
    ensures AlikeEvents(x, y, mode)
  {
  }

  /**
   If events that compare equal are of one kind, then book, checkpoint flag and error, and what the notices
   say, depend only on which events the window holds.
   */
  lemma BookIgnoresReadOrder(asset: Asset, target: U64, mode: ReplayMode, checkpoint: Option<BookCheckpoint>,
                             a: Window, b: Window)
    requires multiset(a.bookEvents) == multiset(b.bookEvents) && multiset(a.ingestEvents) == multiset(b.ingestEvents)
    requires TiesShareKind(a.bookEvents, mode)
    ensures SameResult(Reconstruct(asset, target, mode, checkpoint, a), Reconstruct(asset, target, mode, checkpoint, b))
  {
    hide LatestReset, SortEvents, TiesShareKind, AllStripped, Alike, Reconstruct, SameResult;
    SameReadingOfTies(a.bookEvents, b.bookEvents, mode);
    AlikeThrough(SortEvents(a.bookEvents, mode), SortEvents(b.bookEvents, mode), mode);
    LatestResetOfPermutation(a.ingestEvents, b.ingestEvents, target);
    SortedAlike(asset, target, mode, checkpoint, a, b);
  }
}
