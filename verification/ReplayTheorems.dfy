/** What replay guarantees: seeking refines the plain fold, resets isolate, and read order is irrelevant. */
module ReplayTheorems {
  import opened Types
  import opened OrderBook
  import opened EventOrder
  import opened Replay

  // ---------------------------------------------------------------------------------------------
  // The plain fold: the reference meaning of a history
  // ---------------------------------------------------------------------------------------------

  function OkOf(r: Result<Book, BookError>): Option<Book> {
    if r.Ok? then Some(r.value) else None
  }

  predicate SameRun(a: BookEvent, b: BookEvent, mode: ReplayMode) {
    a.kind == Snapshot && b.kind == Snapshot && EventTs(a, mode) == EventTs(b, mode)
  }

  /** Where the run of adjacent snapshot events ending at `i` begins. */
  function RunStart(events: seq<BookEvent>, i: nat, mode: ReplayMode): (g: nat)
    requires i < |events| && events[i].kind == Snapshot
    ensures g <= i
    ensures forall j | g <= j <= i :: SnapshotAt(events[j], EventTs(events[i], mode), mode)
    ensures g > 0 ==> !SameRun(events[g - 1], events[g], mode)
  {
    if i > 0 && SameRun(events[i - 1], events[i], mode) then RunStart(events, i - 1, mode) else i
  }

  /**
   The whole history, folded from its end: a delta changes the book before it, a run of snapshot events
   replaces it. `None` if any step is rejected.
   */
  function Fold(start: Book, events: seq<BookEvent>, mode: ReplayMode): Option<Book>
    decreases |events|
  {
    if |events| == 0 then Some(start)
    else
      var n := |events| - 1;
      var last := events[n];
      match last.kind
      case Delta =>
        var before := Fold(start, events[..n], mode);
        if before.None? then None else OkOf(ApplyDeltaEvent(before.value, last, EventTs(last, mode)))
      case Snapshot =>
        var g := RunStart(events, n, mode);
        if Fold(start, events[..g], mode).None? then None
        else OkOf(ApplySnapshotEvents(events[g..], EventTs(last, mode)))
  }

  /** No snapshot run straddles position `i`. */
  predicate Boundary(events: seq<BookEvent>, i: nat, mode: ReplayMode) {
    i <= |events| && (0 < i < |events| ==> !SameRun(events[i - 1], events[i], mode))
  }

  ghost predicate SameBook(a: Outcome, b: Outcome) {
    if a.Done? then b.Done? && a.book == b.book else a == b
  }

  lemma {:induction false} RunEndIs(events: seq<BookEvent>, idx: nat, ts: int, mode: ReplayMode, end: nat)
    requires idx <= end <= |events|
    requires forall j | idx <= j < end :: SnapshotAt(events[j], ts, mode)
    requires end < |events| ==> !SnapshotAt(events[end], ts, mode)
    ensures RunEnd(events, idx, ts, mode) == end
    decreases end - idx
  {
    if idx < end {
      RunEndIs(events, idx + 1, ts, mode, end);
    }
  }

  /** One step of the loop over a run of snapshot events. */
  lemma LoopOverRun(asset: Asset, events: seq<BookEvent>, g: nat, j: nat, target: U64, mode: ReplayMode, b: Book)
    requires g < j <= |events| && Boundary(events, j, mode) && EventTs(events[g], mode) <= target
    requires forall i | g <= i < j :: SnapshotAt(events[i], EventTs(events[g], mode), mode)
    requires ApplySnapshotEvents(events[g..j], EventTs(events[g], mode)).Ok?
    ensures ReplayFrom(asset, events, g, target, mode, b)
            == ReplayFrom(asset, events, j, target, mode,
                          ApplySnapshotEvents(events[g..j], EventTs(events[g], mode)).value)
  {
    assert SnapshotAt(events[j - 1], EventTs(events[g], mode), mode);
    RunEndIs(events, g, EventTs(events[g], mode), mode, j);
  }

  lemma {:induction false} RunStartOfPrefix(events: seq<BookEvent>, j: nat, i: nat, mode: ReplayMode)
    requires i < j <= |events| && events[i].kind == Snapshot
    ensures RunStart(events[..j], i, mode) == RunStart(events, i, mode)
  {
    if i > 0 && SameRun(events[i - 1], events[i], mode) {
      RunStartOfPrefix(events, j, i - 1, mode);
    }
  }

  lemma FoldEndingInDelta(start: Book, events: seq<BookEvent>, j: nat, mode: ReplayMode)
    requires 0 < j <= |events| && events[j - 1].kind == Delta
    ensures var before := Fold(start, events[..j - 1], mode);
            Fold(start, events[..j], mode)
            == if before.None? then None
               else OkOf(ApplyDeltaEvent(before.value, events[j - 1], EventTs(events[j - 1], mode)))
  {
    hide ApplyDeltaEvent;
    assert events[..j][..j - 1] == events[..j - 1];
  }

  lemma FoldEndingInRun(start: Book, events: seq<BookEvent>, j: nat, mode: ReplayMode)
    requires 0 < j <= |events| && events[j - 1].kind == Snapshot
    ensures var g := RunStart(events, j - 1, mode);
            Fold(start, events[..j], mode)
            == if Fold(start, events[..g], mode).None? then None
               else OkOf(ApplySnapshotEvents(events[g..j], EventTs(events[j - 1], mode)))
  {
    hide ApplySnapshotEvents, RunStart;
    var g := RunStart(events, j - 1, mode);
    RunStartOfPrefix(events, j, j - 1, mode);
    assert events[..j][..g] == events[..g] && events[..j][g..] == events[g..j];
  }

  /** One step of the loop over a delta. */
  lemma LoopOverDelta(asset: Asset, events: seq<BookEvent>, i: nat, target: U64, mode: ReplayMode, b: Book)
    requires i < |events| && events[i].kind == Delta && EventTs(events[i], mode) <= target
    requires ApplyDeltaEvent(b, events[i], EventTs(events[i], mode)).Ok?
    ensures SameBook(ReplayFrom(asset, events, i, target, mode, b),
                     ReplayFrom(asset, events, i + 1, target, mode,
                                ApplyDeltaEvent(b, events[i], EventTs(events[i], mode)).value))
  {
    hide ApplyDeltaEvent, GapNotices;
  }

  /** At every run boundary, the loop is at the fold of what came before. */
  lemma {:induction false} LoopReaches(asset: Asset, events: seq<BookEvent>, j: nat, target: U64, mode: ReplayMode,
                                       b: Book)
    requires Boundary(events, j, mode) && Fold(b, events[..j], mode).Some?
    requires forall i | 0 <= i < j :: EventTs(events[i], mode) <= target
    ensures SameBook(ReplayFrom(asset, events, 0, target, mode, b),
                     ReplayFrom(asset, events, j, target, mode, Fold(b, events[..j], mode).value))
    decreases j
  {
    if j == 0 {
      assert Fold(b, events[..0], mode) == Some(b);
    } else if events[j - 1].kind == Delta {
      hide Fold, ReplayFrom, ApplyDeltaEvent;
      FoldEndingInDelta(b, events, j, mode);
      LoopReaches(asset, events, j - 1, target, mode, b);
      LoopOverDelta(asset, events, j - 1, target, mode, Fold(b, events[..j - 1], mode).value);
    } else {
      hide Fold, ReplayFrom, ApplySnapshotEvents;
      var g := RunStart(events, j - 1, mode);
      FoldEndingInRun(b, events, j, mode);
      LoopReaches(asset, events, g, target, mode, b);
      LoopOverRun(asset, events, g, j, target, mode, Fold(b, events[..g], mode).value);
    }
  }

  ghost predicate TimeSorted(events: seq<BookEvent>, mode: ReplayMode) {
    forall i, j | 0 <= i <= j < |events| :: EventTs(events[i], mode) <= EventTs(events[j], mode)
  }

  /** The loop over a whole time-sorted list is the fold of the events up to the target. */
  lemma LoopIsFold(asset: Asset, events: seq<BookEvent>, target: U64, mode: ReplayMode, b: Book)
    requires TimeSorted(events, mode) && Fold(b, UpTo(events, target, mode), mode).Some?
    ensures var o := ReplayFrom(asset, events, 0, target, mode, b);
            o.Done? && Some(o.book) == Fold(b, UpTo(events, target, mode), mode)
  {
    hide Fold;
    var n := FirstAfter(events, 0, target, mode);
    LoopReaches(asset, events, n, target, mode, b);
  }

  /** The loop does not look back. */
  lemma {:induction false} LoopOfSuffix(asset: Asset, events: seq<BookEvent>, k: nat, i: nat, target: U64,
                                        mode: ReplayMode, b: Book)
    requires k + i <= |events|
    ensures ReplayFrom(asset, events, k + i, target, mode, b) == ReplayFrom(asset, events[k..], i, target, mode, b)
    decreases |events| - k - i
  {
    hide ApplySnapshotEvents, ApplyDeltaEvent, GapNotices, RejectedNotice, RunEnd, EventTs, Outcome.Prepend;
    if k + i < |events| && EventTs(events[k + i], mode) <= target {
      var ts := EventTs(events[k + i], mode);
      if events[k + i].kind == Snapshot {
        RunEndOfSuffix(events, k, i, ts, mode);
        var end := RunEnd(events, k + i, ts, mode);
        SliceOfSuffix(events, k, k + i, end);
        var r := ApplySnapshotEvents(events[k + i..end], ts);
        if r.Ok? {
          LoopOfSuffix(asset, events, k, end - k, target, mode, r.value);
        }
      } else {
        var r := ApplyDeltaEvent(b, events[k + i], ts);
        if r.Ok? {
          LoopOfSuffix(asset, events, k, i + 1, target, mode, r.value);
        }
      }
    }
  }

  lemma SliceOfSuffix(events: seq<BookEvent>, k: nat, i: nat, end: nat)
    requires k <= i <= end <= |events|
    ensures events[k..][i - k..end - k] == events[i..end]
  {
  }

  lemma {:induction false} RunEndOfSuffix(events: seq<BookEvent>, k: nat, i: nat, ts: int, mode: ReplayMode)
    requires k + i <= |events|
    ensures RunEnd(events, k + i, ts, mode) == k + RunEnd(events[k..], i, ts, mode)
    decreases |events| - k - i
  {
    if k + i < |events| && SnapshotAt(events[k + i], ts, mode) {
      RunEndOfSuffix(events, k, i + 1, ts, mode);
    }
  }

  lemma {:induction false} FirstAfterOfSuffix(events: seq<BookEvent>, k: nat, i: nat, boundary: int, mode: ReplayMode)
    requires k + i <= |events|
    ensures FirstAfter(events, k + i, boundary, mode) == k + FirstAfter(events[k..], i, boundary, mode)
    decreases |events| - k - i
  {
    if k + i < |events| && EventTs(events[k + i], mode) <= boundary {
      FirstAfterOfSuffix(events, k, i + 1, boundary, mode);
    }
  }

  lemma {:induction false} FirstAfterSkip(events: seq<BookEvent>, k: nat, boundary: int, mode: ReplayMode)
    requires k <= |events| && forall j | 0 <= j < k :: EventTs(events[j], mode) <= boundary
    ensures FirstAfter(events, 0, boundary, mode) == FirstAfter(events, k, boundary, mode)
  {
    FirstAfterSkipFrom(events, 0, k, boundary, mode);
  }

  lemma {:induction false} FirstAfterSkipFrom(events: seq<BookEvent>, i: nat, k: nat, boundary: int, mode: ReplayMode)
    requires i <= k <= |events| && forall j | i <= j < k :: EventTs(events[j], mode) <= boundary
    ensures FirstAfter(events, i, boundary, mode) == FirstAfter(events, k, boundary, mode)
    decreases k - i
  {
    if i < k {
      FirstAfterSkipFrom(events, i + 1, k, boundary, mode);
    }
  }

  lemma {:induction false} RunStartOfAppend(a: seq<BookEvent>, b: seq<BookEvent>, i: nat, mode: ReplayMode)
    requires i < |b| && b[i].kind == Snapshot && (|a| > 0 ==> !SameRun(a[|a| - 1], b[0], mode))
    ensures RunStart(a + b, |a| + i, mode) == |a| + RunStart(b, i, mode)
    decreases i
  {
    if i > 0 && SameRun(b[i - 1], b[i], mode) {
      RunStartOfAppend(a, b, i - 1, mode);
    }
  }

  lemma FoldOfLastDelta(start: Book, events: seq<BookEvent>, e: BookEvent, mode: ReplayMode)
    requires e.kind == Delta
    ensures var before := Fold(start, events, mode);
            Fold(start, events + [e], mode)
            == if before.None? then None else OkOf(ApplyDeltaEvent(before.value, e, EventTs(e, mode)))
  {
    hide ApplyDeltaEvent;
    assert (events + [e])[..|events|] == events;
  }

  lemma FoldOfLastSnapshot(start: Book, events: seq<BookEvent>, mode: ReplayMode)
    requires |events| > 0 && events[|events| - 1].kind == Snapshot
    ensures var g := RunStart(events, |events| - 1, mode);
            Fold(start, events, mode)
            == if Fold(start, events[..g], mode).None? then None
               else OkOf(ApplySnapshotEvents(events[g..], EventTs(events[|events| - 1], mode)))
  {
    hide ApplySnapshotEvents, RunStart, EventTs;
  }

  lemma FoldOfLastRun(start: Book, events: seq<BookEvent>, run: seq<BookEvent>, ts: U64, mode: ReplayMode)
    requires |run| > 0 && (forall j | 0 <= j < |run| :: SnapshotAt(run[j], ts, mode))
    requires |events| > 0 ==> !SameRun(events[|events| - 1], run[0], mode)
    ensures Fold(start, events + run, mode)
            == if Fold(start, events, mode).None? then None else OkOf(ApplySnapshotEvents(run, ts))
  {
    hide *;
    LastRunStart(events, run, ts, mode);
    FoldOfLastSnapshot(start, events + run, mode);
    Halves(events, run);
  }

  lemma LastRunStart(events: seq<BookEvent>, run: seq<BookEvent>, ts: U64, mode: ReplayMode)
    requires |run| > 0 && (forall j | 0 <= j < |run| :: SnapshotAt(run[j], ts, mode))
    requires |events| > 0 ==> !SameRun(events[|events| - 1], run[0], mode)
    ensures var all := events + run;
            && all[|all| - 1].kind == Snapshot && EventTs(all[|all| - 1], mode) == ts
            && RunStart(all, |all| - 1, mode) == |events|
  {
    hide RunStart, EventTs;
    assert SnapshotAt(run[|run| - 1], ts, mode);
    RunStartOfRun(run, |run| - 1, ts, mode);
    RunStartOfAppend(events, run, |run| - 1, mode);
  }

  lemma Halves<T>(a: seq<T>, b: seq<T>)
    ensures (a + b)[..|a|] == a && (a + b)[|a|..] == b
  {
  }

  lemma {:induction false} RunStartOfRun(run: seq<BookEvent>, i: nat, ts: U64, mode: ReplayMode)
    requires i < |run| && (forall j | 0 <= j < |run| :: SnapshotAt(run[j], ts, mode)) && SnapshotAt(run[i], ts, mode)
    ensures RunStart(run, i, mode) == 0
  {
    if i > 0 {
      RunStartOfRun(run, i - 1, ts, mode);
    }
  }

  /** Folding a concatenation at a run boundary is folding twice. */
  lemma {:induction false} FoldConcat(start: Book, a: seq<BookEvent>, b: seq<BookEvent>, mode: ReplayMode)
    requires |a| > 0 && |b| > 0 ==> !SameRun(a[|a| - 1], b[0], mode)
    ensures Fold(start, a + b, mode) == FoldAgain(Fold(start, a, mode), b, mode)
    decreases |b|
  {
    hide Fold, RunStart, SameRun, EventTs, SnapshotAt;
    if |b| == 0 {
      assert a + b == a;
      FoldNothing(Fold(start, a, mode), b, mode);
    } else if b[|b| - 1].kind == Delta {
      var init, e := b[..|b| - 1], b[|b| - 1];
      FoldConcat(start, a, init, mode);
      FoldConcatDelta(start, a, init, e, mode);
      assert b == init + [e];
    } else {
      var init, run, ts := LastRun(b, mode);
      FoldConcat(start, a, init, mode);
      FoldConcatRun(start, a, init, run, ts, mode);
    }
  }

  lemma FoldNothing(first: Option<Book>, b: seq<BookEvent>, mode: ReplayMode)
    requires |b| == 0
    ensures FoldAgain(first, b, mode) == first
  {
  }

  /** Splits off the snapshot run at the end. */
  lemma LastRun(b: seq<BookEvent>, mode: ReplayMode) returns (init: seq<BookEvent>, run: seq<BookEvent>, ts: U64)
    requires |b| > 0 && b[|b| - 1].kind == Snapshot
    ensures b == init + run && |run| > 0 && run[0] == b[|init|]
    ensures forall j | 0 <= j < |run| :: SnapshotAt(run[j], ts, mode)
    ensures |init| > 0 ==> !SameRun(init[|init| - 1], run[0], mode)
  {
    hide EventTs;
    var g := RunStart(b, |b| - 1, mode);
    init, run, ts := b[..g], b[g..], EventTs(b[|b| - 1], mode);
  }

  function FoldAgain(first: Option<Book>, b: seq<BookEvent>, mode: ReplayMode): Option<Book> {
    if first.None? then None else Fold(first.value, b, mode)
  }

  lemma FoldConcatDelta(start: Book, a: seq<BookEvent>, init: seq<BookEvent>, e: BookEvent, mode: ReplayMode)
    requires e.kind == Delta && Fold(start, a + init, mode) == FoldAgain(Fold(start, a, mode), init, mode)
    ensures Fold(start, a + (init + [e]), mode) == FoldAgain(Fold(start, a, mode), init + [e], mode)
  {
    hide Fold, ApplyDeltaEvent;
    FoldOfLastDelta(start, a + init, e, mode);
    assert a + (init + [e]) == a + init + [e];
    if Fold(start, a, mode).Some? {
      FoldOfLastDelta(Fold(start, a, mode).value, init, e, mode);
    }
  }

  lemma FoldConcatRun(start: Book, a: seq<BookEvent>, init: seq<BookEvent>, run: seq<BookEvent>, ts: U64,
                      mode: ReplayMode)
    requires Fold(start, a + init, mode) == FoldAgain(Fold(start, a, mode), init, mode)
    requires |run| > 0 && (forall j | 0 <= j < |run| :: SnapshotAt(run[j], ts, mode))
    requires |init| > 0 ==> !SameRun(init[|init| - 1], run[0], mode)
    requires |a| > 0 && |init| == 0 ==> !SameRun(a[|a| - 1], run[0], mode)
    ensures Fold(start, a + (init + run), mode) == FoldAgain(Fold(start, a, mode), init + run, mode)
  {
    hide Fold, ApplySnapshotEvents;
    FoldOfLastRun(start, a + init, run, ts, mode);
    assert a + (init + run) == a + init + run;
    if Fold(start, a, mode).Some? {
      FoldOfLastRun(Fold(start, a, mode).value, init, run, ts, mode);
    }
  }

  /** The events up to the target. */
  function UpTo(events: seq<BookEvent>, target: int, mode: ReplayMode): seq<BookEvent> {
    events[..FirstAfter(events, 0, target, mode)]
  }

  lemma UpToAppend(a: seq<BookEvent>, b: seq<BookEvent>, target: int, mode: ReplayMode)
    requires forall i | 0 <= i < |a| :: EventTs(a[i], mode) <= target
    ensures UpTo(a + b, target, mode) == a + UpTo(b, target, mode)
  {
    FirstAfterSkip(a + b, |a|, target, mode);
    assert (a + b)[|a|..] == b;
    FirstAfterOfSuffix(a + b, |a|, 0, target, mode);
  }

  /** From any run boundary, the loop continues the fold. */
  lemma LoopFrom(asset: Asset, a: seq<BookEvent>, b: seq<BookEvent>, target: U64, mode: ReplayMode, seeded: Book)
    requires TimeSorted(b, mode) && Fold(seeded, UpTo(b, target, mode), mode).Some?
    ensures var o := ReplayFrom(asset, a + b, |a|, target, mode, seeded);
            o.Done? && Some(o.book) == Fold(seeded, UpTo(b, target, mode), mode)
  {
    hide Fold, ReplayFrom;
    assert (a + b)[|a|..] == b;
    LoopOfSuffix(asset, a + b, |a|, 0, target, mode, seeded);
    LoopIsFold(asset, b, target, mode, seeded);
  }

  /** The fold up to the target splits at a run boundary. */
  lemma FoldUpToSplits(start: Book, a: seq<BookEvent>, b: seq<BookEvent>, target: U64, mode: ReplayMode)
    requires forall i | 0 <= i < |a| :: EventTs(a[i], mode) <= target
    requires |a| > 0 && |b| > 0 && EventTs(b[0], mode) <= target ==> !SameRun(a[|a| - 1], b[0], mode)
    ensures Fold(start, UpTo(a + b, target, mode), mode) == FoldAgain(Fold(start, a, mode), UpTo(b, target, mode), mode)
  {
    hide Fold;
    UpToAppend(a, b, target, mode);
    FoldConcat(start, a, UpTo(b, target, mode), mode);
  }

  // ---------------------------------------------------------------------------------------------
  // Seeking to the last snapshot
  // ---------------------------------------------------------------------------------------------

  lemma {:induction false} LevelsOfConcat(a: seq<BookEvent>, b: seq<BookEvent>, side: Side)
    ensures LevelsOf(a + b, side) == LevelsOf(a, side) + LevelsOf(b, side)
  {
    if |b| == 0 {
      assert a + b == a;
    } else {
      LevelsOfConcat(a, b[..|b| - 1], side);
      assert (a + b)[..|a + b| - 1] == a + b[..|b| - 1];
    }
  }

  lemma LevelsAfterPush(events: seq<BookEvent>, e: BookEvent, side: Side)
    ensures LevelsOf(events + [e], side)
            == if e.side == side then LevelsOf(events, side) + [Level(e.price, e.size)] else LevelsOf(events, side)
  {
    assert (events + [e])[..|events|] == events;
  }

  /** Every price the earlier group sets is set again by the later one. */
  predicate Covers(later: seq<BookEvent>, earlier: seq<BookEvent>) {
    forall side <- [Bid, Ask] :: LastWins(LevelsOf(earlier, side)).Keys <= LastWins(LevelsOf(later, side)).Keys
  }

  /**
   Gathering an earlier group of snapshot events together with the last run gives the same book as the
   last run alone if and only if the last run sets every price the earlier group does.
   */
  lemma GatheringAgreesIff(earlier: seq<BookEvent>, run: seq<BookEvent>, ts: U64)
    requires |run| > 0
    requires ApplySnapshotEvents(earlier + run, ts).Ok? && ApplySnapshotEvents(run, ts).Ok?
    ensures ApplySnapshotEvents(earlier + run, ts) == ApplySnapshotEvents(run, ts) <==> Covers(run, earlier)
  {
    assert [Bid, Ask][0] == Bid && [Bid, Ask][1] == Ask;
    LevelsOfConcat(earlier, run, Bid);
    LevelsOfConcat(earlier, run, Ask);
    LastWinsConcat(LevelsOf(earlier, Bid), LevelsOf(run, Bid));
    LastWinsConcat(LevelsOf(earlier, Ask), LevelsOf(run, Ask));
    OverlayAgreesIff(LastWins(LevelsOf(earlier, Bid)), LastWins(LevelsOf(run, Bid)));
    OverlayAgreesIff(LastWins(LevelsOf(earlier, Ask)), LastWins(LevelsOf(run, Ask)));
  }

  lemma OverlayAgreesIff(a: Levels, b: Levels)
    ensures a + b == b <==> a.Keys <= b.Keys
  {
    if a + b == b {
      forall p <- a ensures p in b {
        assert p in a + b;
      }
    }
  }

  lemma NoneLeft(events: seq<BookEvent>, keep: BookEvent -> bool)
    requires forall e <- events :: !keep(e)
    ensures Filter(events, keep) == []
  {
    FilterMembers(events, keep);
    var f := Filter(events, keep);
    assert forall i | 0 <= i < |f| :: f[i] in f;
  }

  lemma {:induction false} AllKept(events: seq<BookEvent>, keep: BookEvent -> bool)
    requires forall e <- events :: keep(e)
    ensures Filter(events, keep) == events
  {
    if |events| > 0 {
      AllKept(events[..|events| - 1], keep);
      assert events == events[..|events| - 1] + [events[|events| - 1]];
    }
  }

  /** What seeking gathers before the last run: snapshot events at the same time, cut off by deltas. */
  function CutOff(events: seq<BookEvent>, idx: nat, mode: ReplayMode): seq<BookEvent>
    requires idx < |events| && events[idx].kind == Snapshot
  {
    Gathered(events[..RunStart(events, idx, mode)], EventTs(events[idx], mode), mode, None)
  }

  lemma FilterThree(a: seq<BookEvent>, b: seq<BookEvent>, c: seq<BookEvent>, keep: BookEvent -> bool)
    requires (forall e <- b :: keep(e)) && (forall e <- c :: !keep(e))
    ensures Filter(a + b + c, keep) == Filter(a, keep) + b
  {
    FilterConcat(a + b, c, keep);
    FilterConcat(a, b, keep);
    AllKept(b, keep);
    NoneLeft(c, keep);
  }

  lemma NotSeekableNotKept(e: BookEvent, ts: U64, target: U64, mode: ReplayMode)
    requires !Seekable(e, target, mode, None) && ts <= target
    ensures !SnapshotAt(e, ts, mode)
  {
  }

  /** Without a reset, seeking gathers the cut-off events and then the last run. */
  lemma GatheredSplits(events: seq<BookEvent>, target: U64, mode: ReplayMode)
    requires LastSeekable(events, |events|, target, mode, None).Some?
    ensures var idx := LastSeekable(events, |events|, target, mode, None).value;
            Gathered(events, EventTs(events[idx], mode), mode, None)
            == CutOff(events, idx, mode) + events[RunStart(events, idx, mode)..idx + 1]
  {
    hide LastSeekable, RunStart, Filter, EventTs;
    var idx := LastSeekable(events, |events|, target, mode, None).value;
    var ts, g := EventTs(events[idx], mode), RunStart(events, idx, mode);
    var keep := (e: BookEvent) => SnapshotAt(e, ts, mode) && AtOrAfter(e.provenance.recvTimestampUs, None);
    forall e <- events[idx + 1..] ensures !keep(e) {
      NotSeekableNotKept(e, EventTs(events[idx], mode), target, mode);
    }
    FilterThree(events[..g], events[g..idx + 1], events[idx + 1..], keep);
    assert events == events[..g] + events[g..idx + 1] + events[idx + 1..];
  }

  /**
   The gathered snapshot is accepted, and the last run sets every price of the snapshot events at its
   time that deltas cut off from it.
   */
  predicate SeekCovered(events: seq<BookEvent>, idx: nat, mode: ReplayMode)
    requires idx < |events| && events[idx].kind == Snapshot
  {
    && ApplySnapshotEvents(Gathered(events, EventTs(events[idx], mode), mode, None), EventTs(events[idx], mode)).Ok?
    && Covers(events[RunStart(events, idx, mode)..idx + 1], CutOff(events, idx, mode))
  }

  /** No reset in force, or, in receive time, one no later than the chosen snapshot. */
  predicate EarlyReset(reset: Option<U64>, e: BookEvent, mode: ReplayMode) {
    reset.None? || (mode == RecvTime && reset.value <= e.provenance.recvTimestampUs)
  }

  lemma {:induction false} FilterSame(events: seq<BookEvent>, f: BookEvent -> bool, g: BookEvent -> bool)
    requires forall e <- events :: f(e) == g(e)
    ensures Filter(events, f) == Filter(events, g)
  {
    if |events| > 0 {
      FilterSame(events[..|events| - 1], f, g);
    }
  }

  /** A reset before the chosen snapshot changes nothing about the start. */
  lemma EarlyResetIgnored(events: seq<BookEvent>, target: U64, mode: ReplayMode, reset: Option<U64>)
    requires LastSeekable(events, |events|, target, mode, None).Some?
    requires EarlyReset(reset, events[LastSeekable(events, |events|, target, mode, None).value], mode)
    ensures Start(events, target, mode, None, reset) == Start(events, target, mode, None, None)
  {
    var idx := LastSeekable(events, |events|, target, mode, None).value;
    var ts := EventTs(events[idx], mode);
    assert Seekable(events[idx], target, mode, reset);
    var found := LastSeekable(events, |events|, target, mode, reset).value;
    assert Seekable(events[found], target, mode, None);
    assert found == idx;
    FilterSame(events, (e: BookEvent) => SnapshotAt(e, ts, mode) && AtOrAfter(e.provenance.recvTimestampUs, reset),
                       (e: BookEvent) => SnapshotAt(e, ts, mode) && AtOrAfter(e.provenance.recvTimestampUs, None));
  }

  /**
   Unless a reset intervenes, seeking to the last snapshot at or before the target gives the same book as
   folding every event up to the target from the empty book, provided no step of that fold is rejected
   and the last snapshot run covers what was cut off from it.
   */
  lemma SeekIsFold(asset: Asset, target: U64, mode: ReplayMode, window: Window)
    requires var events := SortEvents(window.bookEvents, mode);
             var idx := LastSeekable(events, |events|, target, mode, None);
             && idx.Some? && SeekCovered(events, idx.value, mode)
             && EarlyReset(LatestReset(window.ingestEvents, target), events[idx.value], mode)
             && Fold(EMPTY_BOOK, UpTo(events, target, mode), mode).Some?
    ensures var events := SortEvents(window.bookEvents, mode);
            var r := Reconstruct(asset, target, mode, None, window);
            r.Ok? && Some(r.value.book) == Fold(EMPTY_BOOK, UpTo(events, target, mode), mode)
  {
    hide SeekCovered, Fold, SortEvents, LastSeekable, ReplayFrom, Start, UpTo, LatestReset, TimeSorted, CrossedNotices,
      EarlyReset;
    var events := SortEvents(window.bookEvents, mode);
    SortedByTime(window.bookEvents, mode);
    EarlyResetIgnored(events, target, mode, LatestReset(window.ingestEvents, target));
    SeekedLoop(asset, events, LastSeekable(events, |events|, target, mode, None).value, target, mode);
  }

  lemma SeekedLoop(asset: Asset, events: seq<BookEvent>, idx: nat, target: U64, mode: ReplayMode)
    requires TimeSorted(events, mode) && LastSeekable(events, |events|, target, mode, None) == Some(idx)
    requires SeekCovered(events, idx, mode) && Fold(EMPTY_BOOK, UpTo(events, target, mode), mode).Some?
    ensures var start := Start(events, target, mode, None, None);
            && start.Ok?
            && var o := ReplayFrom(asset, events, start.value.1, target, mode, start.value.0);
               o.Done? && Some(o.book) == Fold(EMPTY_BOOK, UpTo(events, target, mode), mode)
  {
    hide SeekCovered, Fold, LastSeekable, ReplayFrom, Start, UpTo;
    var a, b := events[..idx + 1], events[idx + 1..];
    assert a + b == events;
    StartIsFold(events, idx, target, mode);
    SplitAtSeekPoint(events, idx, target, mode);
    LoopFrom(asset, a, b, target, mode, Fold(EMPTY_BOOK, a, mode).value);
  }

  /**
   At the seek point, an accepted gathered snapshot is the fold so far if and only if the last run sets
   every price that it gathered besides.
   */
  lemma StartIsFoldIff(events: seq<BookEvent>, idx: nat, target: U64, mode: ReplayMode)
    requires TimeSorted(events, mode) && LastSeekable(events, |events|, target, mode, None) == Some(idx)
    requires ApplySnapshotEvents(Gathered(events, EventTs(events[idx], mode), mode, None),
                                 EventTs(events[idx], mode)).Ok?
    requires Fold(EMPTY_BOOK, UpTo(events, target, mode), mode).Some?
    ensures Fold(EMPTY_BOOK, events[..idx + 1], mode).Some?
    ensures var start := Start(events, target, mode, None, None);
            && start.Ok? && start.value.1 == idx + 1
            && (start.value.0 == Fold(EMPTY_BOOK, events[..idx + 1], mode).value
                <==> Covers(events[RunStart(events, idx, mode)..idx + 1], CutOff(events, idx, mode)))
  {
    hide Covers, ApplySnapshotEvents, Gathered, Fold, CutOff, UpTo, LastSeekable, EventTs, RunStart, TimeSorted;
    var g := RunStart(events, idx, mode);
    SplitAtSeekPoint(events, idx, target, mode);
    FoldEndingInRun(EMPTY_BOOK, events, idx + 1, mode);
    GatheredSplits(events, target, mode);
    GatheringAgreesIff(CutOff(events, idx, mode), events[g..idx + 1], EventTs(events[idx], mode));
  }

  lemma StartIsFold(events: seq<BookEvent>, idx: nat, target: U64, mode: ReplayMode)
    requires TimeSorted(events, mode) && LastSeekable(events, |events|, target, mode, None) == Some(idx)
    requires SeekCovered(events, idx, mode) && Fold(EMPTY_BOOK, UpTo(events, target, mode), mode).Some?
    ensures Fold(EMPTY_BOOK, events[..idx + 1], mode).Some?
    ensures Start(events, target, mode, None, None) == Ok((Fold(EMPTY_BOOK, events[..idx + 1], mode).value, idx + 1))
  {
    hide Covers, ApplySnapshotEvents, Gathered, Fold, CutOff, UpTo, LastSeekable, EventTs, RunStart, TimeSorted, Start;
    StartIsFoldIff(events, idx, target, mode);
  }

  lemma SplitAtSeekPoint(events: seq<BookEvent>, idx: nat, target: U64, mode: ReplayMode)
    requires TimeSorted(events, mode) && LastSeekable(events, |events|, target, mode, None) == Some(idx)
    ensures Fold(EMPTY_BOOK, UpTo(events, target, mode), mode)
            == FoldAgain(Fold(EMPTY_BOOK, events[..idx + 1], mode), UpTo(events[idx + 1..], target, mode), mode)
  {
    hide Fold, UpTo;
    var a, b := events[..idx + 1], events[idx + 1..];
    assert a + b == events;
    assert |b| > 0 && EventTs(b[0], mode) <= target ==> !Seekable(events[idx + 1], target, mode, None);
    FoldUpToSplits(EMPTY_BOOK, a, b, target, mode);
  }

  lemma SortedByTime(s: seq<BookEvent>, mode: ReplayMode)
    ensures TimeSorted(SortEvents(s, mode), mode)
  {
    hide SortEvents;
    SortCorrect(s, mode);
  }

  /** Snapshot events at one time are adjacent. */
  ghost predicate Contiguous(events: seq<BookEvent>, mode: ReplayMode) {
    forall i, k, j | 0 <= i <= k <= j < |events| && SameRun(events[i], events[j], mode) ::
           SameRun(events[i], events[k], mode)
  }

  /** Contiguous snapshot groups leave nothing cut off, so they satisfy the condition of `SeekIsFold`. */
  lemma ContiguousMeansCovered(events: seq<BookEvent>, idx: nat, target: U64, mode: ReplayMode)
    requires Contiguous(events, mode) && TimeSorted(events, mode)
    requires LastSeekable(events, |events|, target, mode, None) == Some(idx)
    requires Fold(EMPTY_BOOK, UpTo(events, target, mode), mode).Some?
    ensures SeekCovered(events, idx, mode)
  {
    hide Fold, ApplySnapshotEvents, UpTo, LevelsOf, RunStart, LastSeekable, Contiguous, TimeSorted, EventTs, CutOff,
      Gathered, Covers;
    var run := events[RunStart(events, idx, mode)..idx + 1];
    NothingCutOff(events, idx, mode);
    GatheredSplits(events, target, mode);
    assert [] + run == run;
    RunAccepted(events, idx, target, mode);
    NothingToCover(run);
  }

  lemma RunAccepted(events: seq<BookEvent>, idx: nat, target: U64, mode: ReplayMode)
    requires TimeSorted(events, mode) && LastSeekable(events, |events|, target, mode, None) == Some(idx)
    requires Fold(EMPTY_BOOK, UpTo(events, target, mode), mode).Some?
    ensures ApplySnapshotEvents(events[RunStart(events, idx, mode)..idx + 1], EventTs(events[idx], mode)).Ok?
  {
    hide Fold, ApplySnapshotEvents, UpTo, RunStart, LastSeekable, TimeSorted, EventTs;
    SplitAtSeekPoint(events, idx, target, mode);
    FoldEndingInRun(EMPTY_BOOK, events, idx + 1, mode);
  }

  lemma NothingToCover(later: seq<BookEvent>)
    ensures Covers(later, [])
  {
  }

  lemma NothingCutOff(events: seq<BookEvent>, idx: nat, mode: ReplayMode)
    requires idx < |events| && events[idx].kind == Snapshot && Contiguous(events, mode)
    ensures CutOff(events, idx, mode) == []
  {
    var g, ts := RunStart(events, idx, mode), EventTs(events[idx], mode);
    assert SnapshotAt(events[g], ts, mode);
    assert forall i | 0 <= i < g :: SameRun(events[i], events[g], mode) ==> SameRun(events[i], events[g - 1], mode);
    assert forall i | 0 <= i < g :: !SameRun(events[i], events[g], mode);
    NoneLeft(events[..g], (e: BookEvent) => SnapshotAt(e, ts, mode) && AtOrAfter(e.provenance.recvTimestampUs, None));
  }

  // ---------------------------------------------------------------------------------------------
  // Seeding from a checkpoint
  // ---------------------------------------------------------------------------------------------

  predicate SameLevels(a: Book, b: Book) {
    a.bids == b.bids && a.asks == b.asks
  }

  /** Folding depends on the starting book only through its levels. */
  lemma {:induction false} FoldSameLevels(a: Book, b: Book, events: seq<BookEvent>, mode: ReplayMode)
    requires SameLevels(a, b)
    ensures Fold(a, events, mode).Some? <==> Fold(b, events, mode).Some?
    ensures Fold(a, events, mode).Some? ==> SameLevels(Fold(a, events, mode).value, Fold(b, events, mode).value)
    decreases |events|
  {
    hide ApplySnapshotEvents;
    var n := |events| - 1;
    if |events| > 0 {
      if events[n].kind == Delta {
        FoldSameLevels(a, b, events[..n], mode);
      } else {
        FoldSameLevels(a, b, events[..RunStart(events, n, mode)], mode);
      }
    }
  }

  /**
   A checkpoint whose levels are the fold up to its own boundary yields, at any later target, the levels
   of the fold of the whole history; the sequence restarts, so only the levels are compared.
   */
  lemma CheckpointIsFold(asset: Asset, target: U64, mode: ReplayMode, c: BookCheckpoint, window: Window)
    requires AtOrAfter(c.provenance.recvTimestampUs, LatestReset(window.ingestEvents, target))
    requires CheckpointTs(c, mode) <= target
    requires var events := SortEvents(window.bookEvents, mode);
             var upTo := Fold(EMPTY_BOOK, UpTo(events, CheckpointTs(c, mode), mode), mode);
             && upTo.Some? && ApplyCheckpoint(c, mode).Ok? && SameLevels(ApplyCheckpoint(c, mode).value, upTo.value)
             && Fold(EMPTY_BOOK, UpTo(events, target, mode), mode).Some?
    ensures var events := SortEvents(window.bookEvents, mode);
            var r := Reconstruct(asset, target, mode, Some(c), window);
            && r.Ok? && r.value.usedCheckpoint
            && SameLevels(r.value.book, Fold(EMPTY_BOOK, UpTo(events, target, mode), mode).value)
  {
    hide Fold, SortEvents, ReplayFrom, ApplyCheckpoint, SameLevels, UpTo, TimeSorted, LatestReset, CheckpointTs,
      FirstAfter, CrossedNotices;
    var events := SortEvents(window.bookEvents, mode);
    SortedByTime(window.bookEvents, mode);
    SeededLoop(asset, events, CheckpointTs(c, mode), target, mode, ApplyCheckpoint(c, mode).value);
  }

  lemma SeededLoop(asset: Asset, events: seq<BookEvent>, boundary: U64, target: U64, mode: ReplayMode, seeded: Book)
    requires TimeSorted(events, mode) && boundary <= target
    requires Fold(EMPTY_BOOK, UpTo(events, boundary, mode), mode).Some?
    requires SameLevels(seeded, Fold(EMPTY_BOOK, UpTo(events, boundary, mode), mode).value)
    requires Fold(EMPTY_BOOK, UpTo(events, target, mode), mode).Some?
    ensures var o := ReplayFrom(asset, events, FirstAfter(events, 0, boundary, mode), target, mode, seeded);
            o.Done? && SameLevels(o.book, Fold(EMPTY_BOOK, UpTo(events, target, mode), mode).value)
  {
    hide Fold, ReplayFrom, SameLevels, TimeSorted, FirstAfter;
    var s := FirstAfter(events, 0, boundary, mode);
    var a, b := events[..s], events[s..];
    SplitAtBoundary(events, boundary, target, mode);
    SuffixSorted(events, s, mode);
    FoldSameLevels(seeded, Fold(EMPTY_BOOK, UpTo(events, boundary, mode), mode).value, UpTo(b, target, mode), mode);
    assert a + b == events;
    LoopFrom(asset, a, b, target, mode, seeded);
  }

  lemma SuffixSorted(events: seq<BookEvent>, k: nat, mode: ReplayMode)
    requires k <= |events| && TimeSorted(events, mode)
    ensures TimeSorted(events[k..], mode)
  {
  }

  lemma SplitAtBoundary(events: seq<BookEvent>, boundary: U64, target: U64, mode: ReplayMode)
    requires TimeSorted(events, mode) && boundary <= target
    ensures Fold(EMPTY_BOOK, UpTo(events, target, mode), mode)
            == FoldAgain(Fold(EMPTY_BOOK, UpTo(events, boundary, mode), mode),
                         UpTo(events[FirstAfter(events, 0, boundary, mode)..], target, mode), mode)
  {
    hide Fold;
    var s := FirstAfter(events, 0, boundary, mode);
    assert events[..s] + events[s..] == events;
    FoldUpToSplits(EMPTY_BOOK, events[..s], events[s..], target, mode);
  }

  // ---------------------------------------------------------------------------------------------
  // The order in which files were read
  // ---------------------------------------------------------------------------------------------

  lemma {:induction false} LatestResetIsMax(ingest: seq<IngestEvent>, target: U64)
    ensures var r := LatestReset(ingest, target);
            && (r.Some? ==> exists e <- ingest :: IsReset(e, target) && e.provenance.recvTimestampUs == r.value)
            && (forall e <- ingest | IsReset(e, target) :: r.Some? && e.provenance.recvTimestampUs <= r.value)
  {
    if |ingest| > 0 {
      LatestResetIsMax(ingest[..|ingest| - 1], target);
      assert ingest == ingest[..|ingest| - 1] + [ingest[|ingest| - 1]];
    }
  }

  predicate IsReset(e: IngestEvent, target: U64) {
    e.kind == SourceReset && e.provenance.recvTimestampUs <= target
  }

  lemma LatestResetOfPermutation(a: seq<IngestEvent>, b: seq<IngestEvent>, target: U64)
    requires multiset(a) == multiset(b)
    ensures LatestReset(a, target) == LatestReset(b, target)
  {
    LatestResetIsMax(a, target);
    LatestResetIsMax(b, target);
    forall e ensures e in a <==> e in b {
      assert e in multiset(a) <==> e in multiset(b);
    }
  }

  /**
   If no two distinct book events compare equal, the whole result depends only on which events the window
   holds, not on the order in which they were read.
   */
  lemma ReadOrderIrrelevant(asset: Asset, target: U64, mode: ReplayMode, checkpoint: Option<BookCheckpoint>, a: Window,
                            b: Window)
    requires multiset(a.bookEvents) == multiset(b.bookEvents) && multiset(a.ingestEvents) == multiset(b.ingestEvents)
    requires EqualMeansSame(a.bookEvents, mode)
    ensures Reconstruct(asset, target, mode, checkpoint, a) == Reconstruct(asset, target, mode, checkpoint, b)
  {
    hide Start, ReplayFrom, LatestReset, SortEvents, EqualMeansSame;
    OrderIrrelevantIff(a.bookEvents, mode);
    LatestResetOfPermutation(a.ingestEvents, b.ingestEvents, target);
  }

  /** Distinct ordinals are enough: then no two distinct events compare equal. */
  lemma DistinctOrdinalsSuffice(s: seq<BookEvent>, mode: ReplayMode)
    requires forall e <- s :: e.provenance.ingestOrdinal.Some?
    requires forall a <- s, b <- s | a != b :: a.provenance.ingestOrdinal != b.provenance.ingestOrdinal
    ensures EqualMeansSame(s, mode)
  {
  }

  // ---------------------------------------------------------------------------------------------
  // What crosses a reset
  // ---------------------------------------------------------------------------------------------

  function ReceivedSince(reset: U64): BookEvent -> bool {
    (e: BookEvent) => e.provenance.recvTimestampUs >= reset
  }

  /** The window without the book events received before the reset. */
  function SinceReset(window: Window, reset: U64): Window {
    window.(bookEvents := Filter(window.bookEvents, ReceivedSince(reset)))
  }

  lemma {:induction false} RunEndOfPrefix(events: seq<BookEvent>, n: nat, i: nat, ts: int, mode: ReplayMode)
    requires i <= n <= |events| && (n < |events| ==> EventTs(events[n], mode) > ts)
    ensures RunEnd(events[..n], i, ts, mode) == RunEnd(events, i, ts, mode)
    decreases n - i
  {
    if i < n && SnapshotAt(events[i], ts, mode) {
      RunEndOfPrefix(events, n, i + 1, ts, mode);
    }
  }

  /** The loop does not look past the target. */
  lemma {:induction false} LoopOfPrefix(asset: Asset, events: seq<BookEvent>, n: nat, i: nat, target: U64,
                                        mode: ReplayMode, b: Book)
    requires i <= n <= |events| && (n < |events| ==> EventTs(events[n], mode) > target)
    requires forall j | 0 <= j < n :: EventTs(events[j], mode) <= target
    ensures ReplayFrom(asset, events, i, target, mode, b) == ReplayFrom(asset, events[..n], i, target, mode, b)
    decreases n - i
  {
    hide ApplySnapshotEvents, ApplyDeltaEvent, GapNotices, RejectedNotice, RunEnd, EventTs, Outcome.Prepend;
    if i < n {
      var ts := EventTs(events[i], mode);
      if events[i].kind == Snapshot {
        RunEndOfPrefix(events, n, i, ts, mode);
        var end := RunEnd(events, i, ts, mode);
        assert RunEnd(events[..n], i, ts, mode) <= |events[..n]|;
        assert events[..n][i..end] == events[i..end];
        var r := ApplySnapshotEvents(events[i..end], ts);
        if r.Ok? {
          LoopOfPrefix(asset, events, n, end, target, mode, r.value);
        }
      } else {
        var r := ApplyDeltaEvent(b, events[i], ts);
        if r.Ok? {
          LoopOfPrefix(asset, events, n, i + 1, target, mode, r.value);
        }
      }
    }
  }

  /** From any index, the loop's outcome is determined by the events it works through. */
  lemma LoopIsOfUpTo(asset: Asset, events: seq<BookEvent>, i: nat, target: U64, mode: ReplayMode, b: Book)
    requires i <= |events|
    ensures ReplayFrom(asset, events, i, target, mode, b)
            == ReplayFrom(asset, UpTo(events[i..], target, mode), 0, target, mode, b)
  {
    hide ReplayFrom, EventTs;
    LoopOfSuffix(asset, events, i, 0, target, mode, b);
    LoopOfPrefix(asset, events[i..], FirstAfter(events[i..], 0, target, mode), 0, target, mode, b);
  }

  /** Dropping events and cutting at the target commute. */
  lemma UpToOfFilter(events: seq<BookEvent>, keep: BookEvent -> bool, target: U64, mode: ReplayMode)
    requires TimeSorted(events, mode)
    ensures UpTo(Filter(events, keep), target, mode) == Filter(UpTo(events, target, mode), keep)
  {
    hide EventTs, Filter;
    var n := FirstAfter(events, 0, target, mode);
    var u, v := Filter(events[..n], keep), Filter(events[n..], keep);
    SplitFilter(events, n, keep);
    FilterMembers(events[..n], keep);
    FilterMembers(events[n..], keep);
    assert forall i | 0 <= i < |u| :: (u + v)[i] == u[i] && u[i] in u;
    assert forall i | n <= i < |events| :: EventTs(events[n], mode) <= EventTs(events[i], mode);
    if |v| > 0 {
      assert (u + v)[|u|] == v[0] && v[0] in v;
    }
    FirstAfterIs(u + v, |u|, target, mode);
    assert (u + v)[..|u|] == u;
  }

  lemma {:induction false} FilterTwice(events: seq<BookEvent>, keep: BookEvent -> bool, narrower: BookEvent -> bool)
    requires forall e <- events :: narrower(e) ==> keep(e)
    ensures Filter(Filter(events, keep), narrower) == Filter(events, narrower)
  {
    if |events| > 0 {
      hide Filter;
      var n := |events| - 1;
      FilterTwice(events[..n], keep, narrower);
      assert events == events[..n] + [events[n]];
      FilterPush(events[..n], events[n], keep);
      FilterPush(events[..n], events[n], narrower);
      FilterPush(Filter(events[..n], keep), events[n], narrower);
    }
  }

  lemma {:induction false} LastSeekableOfPrefix(events: seq<BookEvent>, m: nat, n: nat, target: int, mode: ReplayMode,
                                                reset: Option<U64>)
    requires n <= m <= |events|
    ensures LastSeekable(events[..m], n, target, mode, reset) == LastSeekable(events, n, target, mode, reset)
  {
    if n > 0 {
      LastSeekableOfPrefix(events, m, n - 1, target, mode, reset);
    }
  }

  /** Among the events since the reset, the same snapshot event is found. */
  ghost predicate FoundSince(events: seq<BookEvent>, n: nat, target: int, mode: ReplayMode, reset: U64)
    requires n <= |events|
  {
    var keep := ReceivedSince(reset);
    var found, kept := LastSeekable(events, n, target, mode, Some(reset)), Filter(events[..n], keep);
    LastSeekable(kept, |kept|, target, mode, Some(reset))
    == if found.None? then None else Some(|Filter(events[..found.value], keep)|)
  }

  lemma {:induction false} LastSeekableSince(events: seq<BookEvent>, n: nat, target: int, mode: ReplayMode, reset: U64)
    requires n <= |events|
    ensures FoundSince(events, n, target, mode, reset)
  {
    if n > 0 {
      hide FoundSince, Seekable;
      LastSeekableSince(events, n - 1, target, mode, reset);
      if Seekable(events[n - 1], target, mode, Some(reset)) {
        FoundAtLast(events, n, target, mode, reset);
      } else {
        FoundEarlier(events, n, target, mode, reset);
      }
    }
  }

  lemma FoundAtLast(events: seq<BookEvent>, n: nat, target: int, mode: ReplayMode, reset: U64)
    requires 0 < n <= |events| && Seekable(events[n - 1], target, mode, Some(reset))
    ensures FoundSince(events, n, target, mode, reset)
  {
    hide Filter, LastSeekable, Seekable, ReceivedSince;
    var e, before := events[n - 1], Filter(events[..n - 1], ReceivedSince(reset));
    assert events[..n] == events[..n - 1] + [e];
    LastSeekableStep(events, n, target, mode, Some(reset));
    SeekableIsReceived(e, target, mode, reset);
    FilterPush(events[..n - 1], e, ReceivedSince(reset));
    LastSeekableAfterPush(before, e, target, mode, Some(reset));
  }

  lemma FoundEarlier(events: seq<BookEvent>, n: nat, target: int, mode: ReplayMode, reset: U64)
    requires 0 < n <= |events| && !Seekable(events[n - 1], target, mode, Some(reset))
    requires FoundSince(events, n - 1, target, mode, reset)
    ensures FoundSince(events, n, target, mode, reset)
  {
    hide Filter, LastSeekable, Seekable, ReceivedSince;
    var e, before := events[n - 1], Filter(events[..n - 1], ReceivedSince(reset));
    assert events[..n] == events[..n - 1] + [e];
    LastSeekableStep(events, n, target, mode, Some(reset));
    FilterPush(events[..n - 1], e, ReceivedSince(reset));
    LastSeekableAfterPush(before, e, target, mode, Some(reset));
    assert before + [] == before;
  }

  lemma SeekableIsReceived(e: BookEvent, target: int, mode: ReplayMode, reset: U64)
    ensures Seekable(e, target, mode, Some(reset)) ==> ReceivedSince(reset)(e)
  {
  }

  lemma LastSeekableStep(events: seq<BookEvent>, n: nat, target: int, mode: ReplayMode, reset: Option<U64>)
    requires 0 < n <= |events|
    ensures LastSeekable(events, n, target, mode, reset)
            == if Seekable(events[n - 1], target, mode, reset) then Some(n - 1)
               else LastSeekable(events, n - 1, target, mode, reset)
  {
  }

  lemma LastSeekableAfterPush(events: seq<BookEvent>, e: BookEvent, target: int, mode: ReplayMode, reset: Option<U64>)
    ensures LastSeekable(events + [e], |events| + 1, target, mode, reset)
            == if Seekable(e, target, mode, reset) then Some(|events|)
               else LastSeekable(events, |events|, target, mode, reset)
  {
    assert (events + [e])[..|events|] == events;
    LastSeekableOfPrefix(events + [e], |events|, |events|, target, mode, reset);
  }

  /** Where replay starts in the events since the reset: the same book, followed by the same events, filtered. */
  ghost predicate StartsAlike(s: Result<(Book, nat), ReplayError>, t: Result<(Book, nat), ReplayError>,
                              events: seq<BookEvent>, reset: U64)
    requires s.Ok? ==> s.value.1 <= |events|
  {
    var kept := Filter(events, ReceivedSince(reset));
    if s.Err? then t == s
    else && t.Ok? && t.value.0 == s.value.0 && t.value.1 <= |kept|
         && kept[t.value.1..] == Filter(events[s.value.1..], ReceivedSince(reset))
  }

  lemma SplitFilter(events: seq<BookEvent>, k: nat, keep: BookEvent -> bool)
    requires k <= |events|
    ensures var head, kept := Filter(events[..k], keep), Filter(events, keep);
            && kept == head + Filter(events[k..], keep)
            && |head| <= |kept| && kept[|head|..] == Filter(events[k..], keep)
  {
    assert events == events[..k] + events[k..];
    FilterConcat(events[..k], events[k..], keep);
  }

  lemma FirstAfterIs(events: seq<BookEvent>, k: nat, boundary: int, mode: ReplayMode)
    requires k <= |events| && (forall i | 0 <= i < k :: EventTs(events[i], mode) <= boundary)
    requires k < |events| ==> EventTs(events[k], mode) > boundary
    ensures FirstAfter(events, 0, boundary, mode) == k
  {
    hide EventTs;
  }

  lemma BoundarySince(events: seq<BookEvent>, boundary: U64, mode: ReplayMode, keep: BookEvent -> bool)
    requires TimeSorted(events, mode)
    ensures var kept := Filter(events, keep);
            kept[FirstAfter(kept, 0, boundary, mode)..] == Filter(events[FirstAfter(events, 0, boundary, mode)..], keep)
  {
    hide EventTs, Filter;
    var k, kept := FirstAfter(events, 0, boundary, mode), Filter(events, keep);
    var head, tail := Filter(events[..k], keep), Filter(events[k..], keep);
    SplitFilter(events, k, keep);
    FilterMembers(events[..k], keep);
    FilterMembers(events[k..], keep);
    assert forall i | k <= i < |events| :: EventTs(events[k], mode) <= EventTs(events[i], mode);
    assert forall i | 0 <= i < |head| :: kept[i] == head[i] && head[i] in head;
    if |tail| > 0 {
      assert kept[|head|] == tail[0] && tail[0] in tail;
    }
    FirstAfterIs(kept, |head|, boundary, mode);
  }

  lemma StartSince(events: seq<BookEvent>, target: U64, mode: ReplayMode, checkpoint: Option<BookCheckpoint>,
                   reset: U64)
    requires TimeSorted(events, mode)
    ensures StartsAlike(Start(events, target, mode, checkpoint, Some(reset)),
                        Start(Filter(events, ReceivedSince(reset)), target, mode, checkpoint, Some(reset)),
                        events, reset)
  {
    hide TimeSorted, ApplySnapshotEvents, ApplyCheckpoint, Filter, LastSeekable, FirstAfter, CheckpointTs, EventTs;
    var keep := ReceivedSince(reset);
    var kept := KeptCheckpoint(checkpoint, Some(reset));
    if kept.Some? {
      BoundarySince(events, CheckpointTs(kept.value, mode), mode, keep);
    } else {
      LastSeekableSince(events, |events|, target, mode, reset);
      assert events[..|events|] == events;
      var idx := LastSeekable(events, |events|, target, mode, Some(reset));
      if idx.Some? {
        SeekPointSince(events, idx.value, mode, reset);
      }
    }
  }

  /** At the chosen snapshot event, the events since the reset hold the same group and the same rest. */
  lemma SeekPointSince(events: seq<BookEvent>, idx: nat, mode: ReplayMode, reset: U64)
    requires idx < |events| && events[idx].provenance.recvTimestampUs >= reset
    ensures var keep := ReceivedSince(reset);
            var kept, at := Filter(events, keep), |Filter(events[..idx], keep)|;
            && at < |kept| && kept[at] == events[idx] && kept[at + 1..] == Filter(events[idx + 1..], keep)
            && Gathered(kept, EventTs(events[idx], mode), mode, Some(reset))
               == Gathered(events, EventTs(events[idx], mode), mode, Some(reset))
  {
    hide Filter, EventTs;
    var keep, ts := ReceivedSince(reset), EventTs(events[idx], mode);
    SplitFilter(events, idx + 1, keep);
    FilterPush(events[..idx], events[idx], keep);
    assert events[..idx] + [events[idx]] == events[..idx + 1];
    FilterTwice(events, keep,
                (e: BookEvent) => SnapshotAt(e, ts, mode) && AtOrAfter(e.provenance.recvTimestampUs, Some(reset)));
  }

  /** The events that the loop works through after the starting point. */
  function LoopEvents(window: Window, target: U64, mode: ReplayMode,
                      checkpoint: Option<BookCheckpoint>): seq<BookEvent> {
    var events := SortEvents(window.bookEvents, mode);
    var start := Start(events, target, mode, checkpoint, LatestReset(window.ingestEvents, target));
    if start.Err? then [] else UpTo(events[start.value.1..], target, mode)
  }

  lemma ReplayedSince(target: U64, mode: ReplayMode, checkpoint: Option<BookCheckpoint>, window: Window, reset: U64)
    requires LatestReset(window.ingestEvents, target) == Some(reset)
    ensures LoopEvents(SinceReset(window, reset), target, mode, checkpoint)
            == Filter(LoopEvents(window, target, mode, checkpoint), ReceivedSince(reset))
  {
    hide SortEvents, Filter, Start, UpTo, LatestReset, TimeSorted;
    var events := SortEvents(window.bookEvents, mode);
    SortedByTime(window.bookEvents, mode);
    FilterSort(window.bookEvents, ReceivedSince(reset), mode);
    StartSince(events, target, mode, checkpoint, reset);
    var start := Start(events, target, mode, checkpoint, Some(reset));
    if start.Ok? {
      SuffixSorted(events, start.value.1, mode);
      UpToOfFilter(events[start.value.1..], ReceivedSince(reset), target, mode);
    } else {
      NoneLeft([], ReceivedSince(reset));
    }
  }

  /** The whole result, computed from the starting book and the events the loop works through. */
  lemma ReconstructOfReplayed(asset: Asset, target: U64, mode: ReplayMode, checkpoint: Option<BookCheckpoint>,
                              window: Window)
    ensures var events, reset := SortEvents(window.bookEvents, mode), LatestReset(window.ingestEvents, target);
            var start := Start(events, target, mode, checkpoint, reset);
            Reconstruct(asset, target, mode, checkpoint, window)
            == if start.Err? then Err(start.error)
               else Concluded(asset, ReplayFrom(asset, LoopEvents(window, target, mode, checkpoint), 0, target, mode,
                                                start.value.0),
                              KeptCheckpoint(checkpoint, reset).Some?)
  {
    hide SortEvents, Start, UpTo, LatestReset, ReplayFrom, CrossedNotices;
    var events, reset := SortEvents(window.bookEvents, mode), LatestReset(window.ingestEvents, target);
    var start := Start(events, target, mode, checkpoint, reset);
    if start.Ok? {
      LoopIsOfUpTo(asset, events, start.value.1, target, mode, start.value.0);
    }
  }

  lemma StartKeepsCheckpoint(events: seq<BookEvent>, target: U64, mode: ReplayMode, checkpoint: Option<BookCheckpoint>,
                             reset: Option<U64>)
    ensures Start(events, target, mode, KeptCheckpoint(checkpoint, reset), reset)
            == Start(events, target, mode, checkpoint, reset)
  {
  }

  /**
   With a reset in force, dropping every book event received before it, and any checkpoint, leaves the
   events the loop works through as they are if and only if none of them was received before the reset;
   and then the whole result, be it a book or an error, is unchanged. This holds in both clock modes and
   from a snapshot as well as from a checkpoint.
   */
  lemma ResetIsolatesIff(asset: Asset, target: U64, mode: ReplayMode, checkpoint: Option<BookCheckpoint>,
                         window: Window)
    requires LatestReset(window.ingestEvents, target).Some?
    ensures var reset := LatestReset(window.ingestEvents, target);
            var loop, since := LoopEvents(window, target, mode, checkpoint), SinceReset(window, reset.value);
            && (LoopEvents(since, target, mode, checkpoint) == loop
                <==> forall e <- loop :: e.provenance.recvTimestampUs >= reset.value)
            && ((forall e <- loop :: e.provenance.recvTimestampUs >= reset.value) ==>
                  Reconstruct(asset, target, mode, checkpoint, window)
                  == Reconstruct(asset, target, mode, KeptCheckpoint(checkpoint, reset), since))
  {
    hide SortEvents, Filter, Start, LatestReset, ReplayFrom, LoopEvents, CrossedNotices, Reconstruct;
    var reset := LatestReset(window.ingestEvents, target);
    var loop, since := LoopEvents(window, target, mode, checkpoint), SinceReset(window, reset.value);
    ReplayedSince(target, mode, checkpoint, window, reset.value);
    FilterMembers(loop, ReceivedSince(reset.value));
    if forall e <- loop :: e.provenance.recvTimestampUs >= reset.value {
      AllKept(loop, ReceivedSince(reset.value));
      SameResultSince(asset, target, mode, checkpoint, window, reset.value);
    }
  }

  lemma SameResultSince(asset: Asset, target: U64, mode: ReplayMode, checkpoint: Option<BookCheckpoint>, window: Window,
                        reset: U64)
    requires LatestReset(window.ingestEvents, target) == Some(reset)
    requires LoopEvents(SinceReset(window, reset), target, mode, checkpoint)
             == LoopEvents(window, target, mode, checkpoint)
    ensures Reconstruct(asset, target, mode, checkpoint, window)
            == Reconstruct(asset, target, mode, KeptCheckpoint(checkpoint, Some(reset)), SinceReset(window, reset))
  {
    var events, kept := SortEvents(window.bookEvents, mode), KeptCheckpoint(checkpoint, Some(reset));
    var since := SinceReset(window, reset);
    StartKeepsCheckpoint(SortEvents(since.bookEvents, mode), target, mode, checkpoint, Some(reset));
    hide SortEvents, Filter, Start, LatestReset, ReplayFrom, CrossedNotices, UpTo;
    assert LoopEvents(since, target, mode, kept) == LoopEvents(since, target, mode, checkpoint);
    hide LoopEvents, Reconstruct;
    SortedByTime(window.bookEvents, mode);
    FilterSort(window.bookEvents, ReceivedSince(reset), mode);
    StartSince(events, target, mode, checkpoint, reset);
    ReconstructOfReplayed(asset, target, mode, checkpoint, window);
    ReconstructOfReplayed(asset, target, mode, kept, since);
  }

  /** In receive time, whatever follows the starting point was received after the reset. */
  lemma ReplayedAfterReset(target: U64, checkpoint: Option<BookCheckpoint>, window: Window)
    requires LatestReset(window.ingestEvents, target).Some?
    ensures forall e <- LoopEvents(window, target, RecvTime, checkpoint) ::
              e.provenance.recvTimestampUs >= LatestReset(window.ingestEvents, target).value
  {
    hide SortEvents, LatestReset, ApplySnapshotEvents, ApplyCheckpoint, Gathered, LastSeekable, FirstAfter;
    var events, reset := SortEvents(window.bookEvents, RecvTime), LatestReset(window.ingestEvents, target);
    SortedByTime(window.bookEvents, RecvTime);
    var start := Start(events, target, RecvTime, checkpoint, reset);
    if start.Ok? {
      var s := start.value.1;
      forall i | s <= i < |events| ensures events[i].provenance.recvTimestampUs >= reset.value {
        if KeptCheckpoint(checkpoint, reset).Some? {
          assert EventTs(events[s], RecvTime) <= EventTs(events[i], RecvTime);
        } else {
          assert EventTs(events[s - 1], RecvTime) <= EventTs(events[i], RecvTime);
        }
      }
    }
  }

  /**
   So in receive time nothing crosses a continuity reset: deleting every book event and any checkpoint
   received before the latest reset always leaves the whole result unchanged.
   */
  lemma ResetIsolates(asset: Asset, target: U64, checkpoint: Option<BookCheckpoint>, window: Window)
    requires LatestReset(window.ingestEvents, target).Some?
    ensures var reset := LatestReset(window.ingestEvents, target);
            Reconstruct(asset, target, RecvTime, checkpoint, window)
            == Reconstruct(asset, target, RecvTime, KeptCheckpoint(checkpoint, reset), SinceReset(window, reset.value))
  {
    hide LoopEvents, Reconstruct, LatestReset;
    ReplayedAfterReset(target, checkpoint, window);
    ResetIsolatesIff(asset, target, RecvTime, checkpoint, window);
  }
}
