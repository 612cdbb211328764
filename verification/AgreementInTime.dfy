/** The agreement of the three books at earlier times, and when snapshots of an asset share a receive time. */
module AgreementInTime {
  import opened Types
  import opened OrderBook
  import opened EventOrder
  import opened Replay
  import opened ReplayTheorems
  import opened SeekExact
  import opened Horizon
  import opened LiveState
  import opened LiveReplay
  import opened Dispatcher
  import opened DispatcherTheorems
  import opened Agreement

  // ---------------------------------------------------------------------------------------------
  // Earlier targets
  // ---------------------------------------------------------------------------------------------

  /** The output has grown by records received later than the target. */
  ghost predicate GrownSince(earlier: seq<PersistedRecord>, all: seq<PersistedRecord>, target: U64) {
    && |earlier| <= |all| && all[..|earlier|] == earlier
    && (forall i | |earlier| <= i < |all| :: RecvUs(all[i]) > target)
  }

  lemma GrowsLater(earlier: seq<PersistedRecord>, d: Dispatch, d': Dispatch, m: FeedMessage, snapshots: bool,
                   target: U64)
    requires GrownSince(earlier, d.emitted, target) && Grows(d, d', m, snapshots) && m.recvUs > target
    ensures GrownSince(earlier, d'.emitted, target)
  {
    forall i | |earlier| <= i < |d'.emitted| ensures RecvUs(d'.emitted[i]) > target {
      if i < |d.emitted| {
        assert d'.emitted[i] == d.emitted[i];
      } else {
        assert Announces(d'.emitted[i], m, snapshots);
      }
    }
  }

  lemma {:induction false} LaterOutput(messages: seq<FeedMessage>, n: nat, target: U64)
    requires n <= |messages| && forall i | n <= i < |messages| :: messages[i].recvUs > target
    ensures GrownSince(HandleAll(INITIAL, messages[..n]).emitted, HandleAll(INITIAL, messages).emitted, target)
  {
    if |messages| == n {
      assert messages[..n] == messages;
    } else {
      hide Handle, GrownSince;
      var init, m := messages[..|messages| - 1], messages[|messages| - 1];
      LaterOutput(init, n, target);
      assert init[..n] == messages[..n];
      var before := HandleAll(INITIAL, init);
      var snapshots := HandleExtends(before, m);
      GrowsLater(HandleAll(INITIAL, messages[..n]).emitted, before, Handle(before, m), m, snapshots, target);
    }
  }

  /** What is stored of the asset: first what the shorter run stored, then only later events. */
  lemma StoredSince(earlier: seq<PersistedRecord>, all: seq<PersistedRecord>, a: Asset, target: U64)
    requires GrownSince(earlier, all, target) && |all| <= U64_LIMIT
    ensures var later := EventsOf(Stamped(all)[|earlier|..], a);
            && EventsOf(Stamped(all), a) == EventsOf(Stamped(earlier), a) + later
            && forall e <- later :: EventTs(e, RecvTime) > target
  {
    hide EventsOf;
    var stamped, k := Stamped(all), |earlier|;
    assert stamped[..k] == Stamped(earlier) && stamped == stamped[..k] + stamped[k..];
    EventsOfConcat(stamped[..k], stamped[k..], a);
    forall e <- EventsOf(stamped[k..], a) ensures EventTs(e, RecvTime) > target {
      var i := EventHasRecord(stamped[k..], a, e);
      assert stamped[k + i] == StampRecord(all[k + i], k + i);
    }
  }

  lemma ReplayOfEarlier(earlier: seq<PersistedRecord>, all: seq<PersistedRecord>, a: Asset, now: int, target: U64,
                        window: Window)
    requires GrownSince(earlier, all, target) && |all| <= U64_LIMIT && InOrder(all, now)
    requires multiset(window.bookEvents) == multiset(EventsOf(Stamped(all), a))
    ensures Reconstruct(a, target, RecvTime, None, window)
            == Reconstruct(a, target, RecvTime, None, Window(EventsOf(Stamped(earlier), a), window.ingestEvents))
  {
    hide EventsOf, Reconstruct, InOrder, EqualMeansSame, SortEvents, InArrivalOrder, GrownSince, EventTs;
    EarlierIsShorter(earlier, all, target);
    StoredSince(earlier, all, a, target);
    StampedInArrivalOrder(all, now, a);
    ArrivalOrderIsSorted(EventsOf(Stamped(all), a));
    ReadOrderIrrelevant(a, target, RecvTime, None, Window(EventsOf(Stamped(all), a), window.ingestEvents), window);
    LaterEventsIrrelevant(a, target, RecvTime, EventsOf(Stamped(earlier), a), EventsOf(Stamped(all)[|earlier|..], a),
                          window.ingestEvents);
  }

  lemma EarlierIsShorter(earlier: seq<PersistedRecord>, all: seq<PersistedRecord>, target: U64)
    requires GrownSince(earlier, all, target)
    ensures |earlier| <= |all|
  {
  }

  lemma ClockedStart(messages: seq<FeedMessage>, n: nat)
    requires Clocked(messages) && n <= |messages|
    ensures Clocked(messages[..n])
  {
  }

  /**
   Replaying what a run stored to any target time gives the shadow book that the dispatcher had then, and
   that the live projector had: the messages up to the target decide, whatever came later.
   */
  lemma ThreeBooksAgreeAtAnyTime(messages: seq<FeedMessage>, n: nat, a: Asset, s: State, target: U64, window: Window)
    requires Clocked(messages) && n <= |messages| && s.pending.None?
    requires forall i | 0 <= i < |messages| :: messages[i].recvUs <= target <==> i < n
    requires Live(HandleAll(INITIAL, messages[..n]), a) && |HandleAll(INITIAL, messages).emitted| <= U64_LIMIT
    requires multiset(window.bookEvents) == multiset(EventsOf(Stamped(HandleAll(INITIAL, messages).emitted), a))
    ensures var d := HandleAll(INITIAL, messages[..n]);
            var live := LiveBook(RunRecords(s, Stamped(d.emitted)), a);
            var r := Reconstruct(a, target, RecvTime, None, window);
            && SameLevels(live, d.books[a])
            && if AtOrAfter(Sent(d, a)[0].provenance.recvTimestampUs, LatestReset(window.ingestEvents, target))
               then r.Ok? && r.value.book == live && r.value.notices == CrossedNotices(a, live)
               else r == Err(NoSnapshotFound)
  {
    hide HandleAll, Sent, EventsOf, Reconstruct, LiveBook, RunRecords, LatestReset, InOrder, AllWellGrouped,
      CrossedNotices, SameLevels, GrownSince, Clocked, Marked, CameFrom;
    var all, d := HandleAll(INITIAL, messages), HandleAll(INITIAL, messages[..n]);
    OutputShape(messages);
    ClockedStart(messages, n);
    LaterOutput(messages, n, target);
    var now := if |messages| == 0 then -1 else messages[|messages| - 1].recvUs as int;
    ReplayOfEarlier(d.emitted, all.emitted, a, now, target, window);
    ThreeBooksAgree(messages[..n], a, s, target, Window(EventsOf(Stamped(d.emitted), a), window.ingestEvents));
  }

  // ---------------------------------------------------------------------------------------------
  // Snapshots of one asset at one time
  // ---------------------------------------------------------------------------------------------

  /** Receive times never go back; nothing is said about snapshots. */
  ghost predicate Ordered(messages: seq<FeedMessage>) {
    forall i, j | 0 <= i < j < |messages| :: messages[i].recvUs <= messages[j].recvUs
  }

  /** From the mark on, the asset's snapshot events come first, and they are one group. */
  ghost predicate GroupAt(records: seq<PersistedRecord>, a: Asset, mark: nat) {
    && mark <= |records|
    && forall i, k | mark <= i <= k < |records| && SnapshotOf(records[k], a) :: SameGroup(records[i], records[k], a)
  }

  ghost predicate GroupsAtMarks(d: Dispatch) {
    forall a <- d.since :: GroupAt(d.emitted, a, d.since[a])
  }

  lemma GroupOfMessage(d: Dispatch, d': Dispatch, m: FeedMessage)
    requires m.BookMessage? && Grows(d, d', m, true)
    ensures GroupAt(d'.emitted, m.asset, |d.emitted|)
  {
    forall i, k | |d.emitted| <= i <= k < |d'.emitted| && SnapshotOf(d'.emitted[k], m.asset)
      ensures SameGroup(d'.emitted[i], d'.emitted[k], m.asset)
    {
      assert Announces(d'.emitted[i], m, true) && Announces(d'.emitted[k], m, true);
    }
  }

  lemma GroupKept(d: Dispatch, d': Dispatch, m: FeedMessage, snapshots: bool, a: Asset, mark: nat)
    requires GroupAt(d.emitted, a, mark) && Grows(d, d', m, snapshots) && (snapshots ==> m.BookMessage? && m.asset != a)
    ensures GroupAt(d'.emitted, a, mark)
  {
    hide Announces, SameGroup;
    NoSnapshotAdded(d, d', m, snapshots, a);
  }

  lemma NoGroup(d: Dispatch, d': Dispatch, m: FeedMessage, snapshots: bool, a: Asset)
    requires Grows(d, d', m, snapshots) && (snapshots ==> m.BookMessage? && m.asset != a)
    ensures GroupAt(d'.emitted, a, |d.emitted|)
  {
    hide Announces, SameGroup;
    NoSnapshotAdded(d, d', m, snapshots, a);
  }

  lemma GroupsKeptAtMarks(d: Dispatch, d': Dispatch, m: FeedMessage, snapshots: bool)
    requires GroupsAtMarks(d) && Extends(d, d', m, snapshots)
    ensures GroupsAtMarks(d')
  {
    hide GroupAt, Grows;
    forall a | a in d'.since ensures GroupAt(d'.emitted, a, d'.since[a]) {
      if snapshots && a == m.asset {
        GroupOfMessage(d, d', m);
      } else if a in d.since && d'.since[a] == d.since[a] {
        assert GroupAt(d.emitted, a, d.since[a]);
        GroupKept(d, d', m, snapshots, a, d.since[a]);
      } else {
        NoGroup(d, d', m, snapshots, a);
      }
    }
  }

  lemma {:induction false} OrderedShape(messages: seq<FeedMessage>)
    requires Ordered(messages)
    ensures var d := HandleAll(INITIAL, messages);
            && InOrder(d.emitted, if |messages| == 0 then -1 else messages[|messages| - 1].recvUs)
            && GroupsAtMarks(d)
  {
    if |messages| > 0 {
      hide Handle, InOrder, GroupsAtMarks, Grows;
      var n := |messages| - 1;
      OrderedShape(messages[..n]);
      var before := HandleAll(INITIAL, messages[..n]);
      var snapshots := HandleExtends(before, messages[n]);
      var now := if n == 0 then -1 else messages[n - 1].recvUs as int;
      OrderKept(before, Handle(before, messages[n]), messages[n], snapshots, now);
      GroupsKeptAtMarks(before, Handle(before, messages[n]), messages[n], snapshots);
    }
  }

  /** Snapshot events come first, all with one receive time. */
  ghost predicate GroupThenDeltas(events: seq<BookEvent>) {
    forall i, k | 0 <= i <= k < |events| && events[k].kind == Snapshot ::
      && events[i].kind == Snapshot
      && events[i].provenance.recvTimestampUs == events[k].provenance.recvTimestampUs
  }

  lemma SentIsGroupThenDeltas(d: Dispatch, a: Asset)
    requires a in d.since && GroupAt(d.emitted, a, d.since[a])
    ensures GroupThenDeltas(Sent(d, a))
  {
    hide EventsOf, SameGroup;
    var tail, sent := d.emitted[d.since[a]..], Sent(d, a);
    forall i, k | 0 <= i <= k < |sent| && sent[k].kind == Snapshot
      ensures sent[i].kind == Snapshot && sent[i].provenance.recvTimestampUs == sent[k].provenance.recvTimestampUs
    {
      var p := Locate(tail, a, i);
      var q := Locate(tail, a, k);
      LocatedInOrder(tail, a, p, q);
      assert d.emitted[d.since[a] + p] == tail[p] && d.emitted[d.since[a] + q] == tail[q];
      assert SameGroup(tail[p], tail[q], a);
      SameGroupSameRun(tail[p], tail[q], a);
    }
  }

  lemma RestampedGroup(x: seq<BookEvent>, y: seq<BookEvent>)
    requires Restamped(x, y) && GroupThenDeltas(y)
    ensures GroupThenDeltas(x)
  {
    forall i, k | 0 <= i <= k < |x| && x[k].kind == Snapshot
      ensures x[i].kind == Snapshot && x[i].provenance.recvTimestampUs == x[k].provenance.recvTimestampUs
    {
      assert x[i] == StampEvent(y[i], x[i].provenance.ingestOrdinal)
             && x[k] == StampEvent(y[k], x[k].provenance.ingestOrdinal);
    }
  }

  /** How many of the events are the snapshot group they begin with. */
  function GroupSize(events: seq<BookEvent>): (g: nat)
    requires |events| > 0 && events[0].kind == Snapshot
    ensures 0 < g <= |events|
  {
    RunEnd(events, 0, EventTs(events[0], RecvTime), RecvTime)
  }

  lemma {:induction false} RunEndHolds(events: seq<BookEvent>, i: nat, ts: U64)
    requires i <= |events|
    ensures var end := RunEnd(events, i, ts, RecvTime);
            && (forall j | i <= j < end :: SnapshotAt(events[j], ts, RecvTime))
            && (end < |events| ==> !SnapshotAt(events[end], ts, RecvTime))
    decreases |events| - i
  {
    if i < |events| && SnapshotAt(events[i], ts, RecvTime) {
      RunEndHolds(events, i + 1, ts);
    }
  }

  lemma SplitGroup(events: seq<BookEvent>)
    requires |events| > 0 && events[0].kind == Snapshot && GroupThenDeltas(events)
    ensures var g, ts := GroupSize(events), EventTs(events[0], RecvTime);
            && (forall j | 0 <= j < g :: SnapshotAt(events[j], ts, RecvTime))
            && (forall j | g <= j < |events| :: events[j].kind == Delta)
            && AllDeltas(events[g..])
  {
    var g, ts := GroupSize(events), EventTs(events[0], RecvTime);
    RunEndHolds(events, 0, ts);
    assert g < |events| ==> !SnapshotAt(events[g], ts, RecvTime);
  }

  /** The fold of a group and deltas. */
  lemma FoldOfGroup(events: seq<BookEvent>)
    requires |events| > 0 && events[0].kind == Snapshot && GroupThenDeltas(events)
             && Fold(EMPTY_BOOK, events, RecvTime).Some?
    ensures var g := GroupSize(events);
            var group := ApplySnapshotEvents(events[..g], EventTs(events[0], RecvTime));
            group.Ok? && Fold(group.value, events[g..], RecvTime) == Fold(EMPTY_BOOK, events, RecvTime)
  {
    hide Fold, ApplySnapshotEvents, EventTs, GroupSize, GroupThenDeltas, AllDeltas, RunEnd;
    var g, ts := GroupSize(events), EventTs(events[0], RecvTime);
    SplitGroup(events);
    assert events == events[..g] + events[g..] && [] + events[..g] == events[..g];
    FoldOfNothing([]);
    FoldOfLastRun(EMPTY_BOOK, [], events[..g], ts, RecvTime);
    assert |events[g..]| > 0 ==> events[g..][0].kind == Delta;
    FoldConcat(EMPTY_BOOK, events[..g], events[g..], RecvTime);
  }

  /** Seeking in older events followed by a group and deltas: the group is found, and gathered with its like. */
  lemma SeekFindsGroup(x: seq<BookEvent>, y: seq<BookEvent>, target: U64)
    requires |y| > 0 && y[0].kind == Snapshot && GroupThenDeltas(y) && EventTs(y[0], RecvTime) <= target
    ensures var g, ts := GroupSize(y), EventTs(y[0], RecvTime);
            && LastSeekable(x + y, |x + y|, target, RecvTime, None) == Some(|x| + g - 1)
            && EventTs((x + y)[|x| + g - 1], RecvTime) == ts
            && Gathered(x + y, ts, RecvTime, None) == Gathered(x, ts, RecvTime, None) + y[..g]
  {
    hide EventTs, GroupSize, GroupThenDeltas, AllDeltas, LastSeekable, Gathered;
    var g, ts, all := GroupSize(y), EventTs(y[0], RecvTime), x + y;
    SplitGroup(y);
    assert all[|x| + g - 1] == y[g - 1] && SnapshotAt(y[g - 1], ts, RecvTime);
    assert Seekable(all[|x| + g - 1], target, RecvTime, None);
    forall i | |x| + g <= i < |all| ensures !Seekable(all[i], target, RecvTime, None) {
      assert all[i] == y[i - |x|];
    }
    GathersGroup(x, y, g, ts);
  }

  lemma GathersGroup(x: seq<BookEvent>, y: seq<BookEvent>, g: nat, ts: U64)
    requires g <= |y| && (forall j | 0 <= j < g :: SnapshotAt(y[j], ts, RecvTime))
    requires forall j | g <= j < |y| :: y[j].kind == Delta
    ensures Gathered(x + y, ts, RecvTime, None) == Gathered(x, ts, RecvTime, None) + y[..g]
  {
    hide EventTs, Filter;
    var keep := (e: BookEvent) => SnapshotAt(e, ts, RecvTime) && AtOrAfter(e.provenance.recvTimestampUs, None);
    FilterConcat(x, y, keep);
    assert y == [] + y[..g] + y[g..];
    assert forall e <- y[g..] :: e.kind == Delta;
    assert Filter([], keep) + y[..g] == y[..g] by {
      NoneLeft([], keep);
    }
    FilterThree([], y[..g], y[g..], keep);
  }

  /** What replay makes of older events followed by a group and deltas, if it accepts them. */
  lemma ReplayOfGroup(asset: Asset, x: seq<BookEvent>, y: seq<BookEvent>, target: U64, window: Window)
    requires |y| > 0 && y[0].kind == Snapshot && GroupThenDeltas(y) && InArrivalOrder(x + y)
    requires multiset(window.bookEvents) == multiset(x + y)
    requires forall e <- y :: EventTs(e, RecvTime) <= target
    requires AtOrAfter(EventTs(y[0], RecvTime), LatestReset(window.ingestEvents, target))
    requires var gathered := ApplySnapshotEvents(Gathered(x, EventTs(y[0], RecvTime), RecvTime, None)
                                                 + y[..GroupSize(y)],
                                                 EventTs(y[0], RecvTime));
             gathered.Ok? && Fold(gathered.value, y[GroupSize(y)..], RecvTime).Some?
    ensures var gathered := ApplySnapshotEvents(Gathered(x, EventTs(y[0], RecvTime), RecvTime, None)
                                                + y[..GroupSize(y)],
                                                EventTs(y[0], RecvTime)).value;
            var r := Reconstruct(asset, target, RecvTime, None, window);
            r.Ok? && Some(r.value.book) == Fold(gathered, y[GroupSize(y)..], RecvTime)
  {
    hide EventTs, GroupSize, GroupThenDeltas, Gathered, ApplySnapshotEvents, Fold, LatestReset, InArrivalOrder,
      EqualMeansSame, SortEvents, ReplayFrom, LastSeekable, CrossedNotices, UpTo, TimeSorted;
    var all, g, ts := x + y, GroupSize(y), EventTs(y[0], RecvTime);
    var idx := |x| + g - 1;
    ArrivalOrderIsSorted(all);
    SortedByTime(all, RecvTime);
    ReadOrderIrrelevant(asset, target, RecvTime, None, Window(all, window.ingestEvents), window);
    assert y[0] in y;
    SeekFindsGroup(x, y, target);
    GroupReset(all[idx], ts, LatestReset(window.ingestEvents, target));
    EarlyResetIgnored(all, target, RecvTime, LatestReset(window.ingestEvents, target));
    assert all[idx + 1..] == y[g..];
    NothingBehind(y[g..], y, target);
    var gathered := ApplySnapshotEvents(Gathered(all, ts, RecvTime, None), ts);
    LoopFromSeekPoint(asset, all, idx, target, RecvTime, gathered.value);
  }

  lemma GroupReset(e: BookEvent, ts: U64, reset: Option<U64>)
    requires EventTs(e, RecvTime) == ts && AtOrAfter(ts, reset)
    ensures EarlyReset(reset, e, RecvTime)
  {
  }

  lemma NothingBehind(events: seq<BookEvent>, all: seq<BookEvent>, target: U64)
    requires (forall e <- events :: e in all) && forall e <- all :: EventTs(e, RecvTime) <= target
    ensures UpTo(events, target, RecvTime) == events
  {
    WholeHistoryUpTo(events, target);
  }

  /** The stored events of the asset before its snapshot mark. */
  function Older(d: Dispatch, a: Asset): seq<BookEvent>
    requires a in d.since && d.since[a] <= |d.emitted| <= U64_LIMIT
  {
    EventsOf(Stamped(d.emitted)[..d.since[a]], a)
  }

  /** The stored form of what was sent since. */
  function Newer(d: Dispatch, a: Asset): seq<BookEvent>
    requires a in d.since && d.since[a] <= |d.emitted| <= U64_LIMIT
  {
    EventsOf(Stamped(d.emitted)[d.since[a]..], a)
  }

  lemma StoredParts(d: Dispatch, a: Asset, now: int)
    requires Live(d, a) && FaithfulFor(d, a) && GroupAt(d.emitted, a, d.since[a]) && InOrder(d.emitted, now)
    ensures var x, y := Older(d, a), Newer(d, a);
            && EventsOf(Stamped(d.emitted), a) == x + y && InArrivalOrder(x + y)
            && |y| > 0 && y[0].kind == Snapshot && GroupThenDeltas(y)
            && EventTs(y[0], RecvTime) == Sent(d, a)[0].provenance.recvTimestampUs
            && Fold(EMPTY_BOOK, y, RecvTime) == Fold(EMPTY_BOOK, Sent(d, a), RecvTime)
            && (forall e <- y :: EventTs(e, RecvTime) <= now)
  {
    hide EventsOf, Fold, GroupAt, InOrder, InArrivalOrder, GroupThenDeltas, Rebuilds, NumberedFrom, Restamped, EventTs,
      Sent, Stamped;
    var stamped, k := Stamped(d.emitted), d.since[a];
    StampedLength(d.emitted);
    assert stamped == stamped[..k] + stamped[k..];
    EventsOfConcat(stamped[..k], stamped[k..], a);
    StampedInArrivalOrder(d.emitted, now, a);
    NewerIsRestamped(d, a);
    SentIsGroupThenDeltas(d, a);
    RestampedGroup(Newer(d, a), Sent(d, a));
    RestampedFirst(Newer(d, a), Sent(d, a));
    FoldIgnoresOrdinals(EMPTY_BOOK, Newer(d, a), Sent(d, a));
    forall e <- Newer(d, a) ensures EventTs(e, RecvTime) <= now {
      NewerIsNoLater(d, a, now, e);
    }
  }

  lemma StampedLength(records: seq<PersistedRecord>)
    requires |records| <= U64_LIMIT
    ensures |Stamped(records)| == |records|
  {
  }

  lemma NewerIsRestamped(d: Dispatch, a: Asset)
    requires a in d.since && d.since[a] <= |d.emitted| <= U64_LIMIT
    ensures Restamped(Newer(d, a), Sent(d, a))
  {
    hide EventsOf, Restamped;
    StampedSlices(d.emitted, d.since[a]);
    StampedEvents(Stamped(d.emitted)[d.since[a]..], d.emitted[d.since[a]..], a);
  }

  lemma RestampedFirst(x: seq<BookEvent>, y: seq<BookEvent>)
    requires Restamped(x, y) && |y| > 0
    ensures |x| == |y| && x[0].kind == y[0].kind && EventTs(x[0], RecvTime) == y[0].provenance.recvTimestampUs
  {
    assert x[0] == StampEvent(y[0], x[0].provenance.ingestOrdinal);
  }

  lemma NewerIsNoLater(d: Dispatch, a: Asset, now: int, e: BookEvent)
    requires a in d.since && d.since[a] <= |d.emitted| <= U64_LIMIT && InOrder(d.emitted, now) && e in Newer(d, a)
    ensures EventTs(e, RecvTime) <= now
  {
    hide EventsOf, InOrder;
    var k := d.since[a];
    var i := EventHasRecord(Stamped(d.emitted)[k..], a, e);
    assert Stamped(d.emitted)[k + i] == StampRecord(d.emitted[k + i], k + i);
    NoLaterThan(d.emitted, now, k + i);
  }

  lemma NoLaterThan(records: seq<PersistedRecord>, now: int, i: nat)
    requires InOrder(records, now) && i < |records|
    ensures RecvUs(records[i]) <= now
  {
  }

  /** The group, taken together with the older snapshot events of its time, and the deltas after it are accepted. */
  ghost predicate GatheredAccepted(x: seq<BookEvent>, y: seq<BookEvent>) {
    && |y| > 0 && y[0].kind == Snapshot
    && var ts := EventTs(y[0], RecvTime);
       var gathered := ApplySnapshotEvents(Gathered(x, ts, RecvTime, None) + y[..GroupSize(y)], ts);
       gathered.Ok? && Fold(gathered.value, y[GroupSize(y)..], RecvTime).Some?
  }

  /** Every price that only older snapshot events of the group's time set is set by a delta after the group. */
  ghost predicate OlderMadeUp(x: seq<BookEvent>, y: seq<BookEvent>)
    requires |y| > 0 && y[0].kind == Snapshot
  {
    var earlier := Gathered(x, EventTs(y[0], RecvTime), RecvTime, None);
    var group, later := y[..GroupSize(y)], y[GroupSize(y)..];
    forall side, p | Uncovered(earlier, group, side, p) :: LastSet(later, side, p).Some?
  }

  lemma GroupReplayIff(asset: Asset, x: seq<BookEvent>, y: seq<BookEvent>, target: U64, window: Window)
    requires GatheredAccepted(x, y) && GroupThenDeltas(y) && InArrivalOrder(x + y)
    requires multiset(window.bookEvents) == multiset(x + y) && Fold(EMPTY_BOOK, y, RecvTime).Some?
    requires forall e <- y :: EventTs(e, RecvTime) <= target
    requires AtOrAfter(EventTs(y[0], RecvTime), LatestReset(window.ingestEvents, target))
    ensures var r := Reconstruct(asset, target, RecvTime, None, window);
            && r.Ok?
            && (SameLevels(r.value.book, Fold(EMPTY_BOOK, y, RecvTime).value) <==> OlderMadeUp(x, y))
  {
    hide EventTs, GroupSize, GroupThenDeltas, Gathered, ApplySnapshotEvents, Fold, LatestReset, InArrivalOrder,
      Reconstruct, Uncovered, LastSet, SameLevels, AllDeltas;
    ReplayOfGroup(asset, x, y, target, window);
    FoldOfGroup(y);
    SplitGroup(y);
    GatheredThenDeltasIff(Gathered(x, EventTs(y[0], RecvTime), RecvTime, None), y[..GroupSize(y)],
                          EventTs(y[0], RecvTime),
                          y[GroupSize(y)..], RecvTime);
  }

  /**
   When snapshots of an asset may share a receive time, replay still gives the shadow book's levels if and
   only if every price which only older snapshots of the last one's time set is set by a delta after it. No
   reset came after the last snapshot, and what replay gathers is accepted.
   */
  lemma SameTimeSnapshotsIff(messages: seq<FeedMessage>, a: Asset, target: U64, window: Window)
    requires Ordered(messages) && (forall m <- messages :: m.recvUs <= target)
    requires Live(HandleAll(INITIAL, messages), a)
    requires var d := HandleAll(INITIAL, messages);
             && multiset(window.bookEvents) == multiset(EventsOf(Stamped(d.emitted), a))
             && AtOrAfter(Sent(d, a)[0].provenance.recvTimestampUs, LatestReset(window.ingestEvents, target))
             && a in d.since && d.since[a] <= |d.emitted| && GatheredAccepted(Older(d, a), Newer(d, a))
    ensures var d := HandleAll(INITIAL, messages);
            var r := Reconstruct(a, target, RecvTime, None, window);
            && r.Ok?
            && (SameLevels(r.value.book, d.books[a]) <==> OlderMadeUp(Older(d, a), Newer(d, a)))
  {
    hide HandleAll, Sent, EventsOf, Fold, Reconstruct, LatestReset, InOrder, GroupAt, NumberedFrom, InArrivalOrder,
      SameLevels, GroupThenDeltas, OlderMadeUp, EventTs, GatheredAccepted, Older, Newer;
    var d := HandleAll(INITIAL, messages);
    var now := if |messages| == 0 then -1 else messages[|messages| - 1].recvUs as int;
    RunKeepsFaithful(messages);
    assert FaithfulFor(d, a);
    OrderedShape(messages);
    StoredParts(d, a, now);
    assert now <= target;
    GroupReplayIff(a, Older(d, a), Newer(d, a), target, window);
    SameLevelsAsFold(Reconstruct(a, target, RecvTime, None, window).value.book, d, a);
  }

  /** The shadow book has the levels of the fold of what was sent. */
  lemma SameLevelsAsFold(b: Book, d: Dispatch, a: Asset)
    requires a in d.books && FaithfulFor(d, a)
    ensures Fold(EMPTY_BOOK, Sent(d, a), RecvTime).Some?
    ensures SameLevels(b, d.books[a]) <==> SameLevels(b, Fold(EMPTY_BOOK, Sent(d, a), RecvTime).value)
  {
    hide Fold, Sent, NumberedFrom;
  }

  /** The asset's last snapshot does not continue the group of an event sent right before it. */
  ghost predicate NewGroupAtMark(d: Dispatch, a: Asset) {
    a in d.since && 0 < d.since[a] < |d.emitted| ==> !SameGroup(d.emitted[d.since[a] - 1], d.emitted[d.since[a]], a)
  }

  /** The mark is where the first sent event is. */
  lemma MarkIsFirst(d: Dispatch, a: Asset)
    requires Live(d, a) && a in d.since && d.since[a] <= |d.emitted| && GroupAt(d.emitted, a, d.since[a])
    ensures var k := d.since[a];
            && k < |d.emitted| && SnapshotOf(d.emitted[k], a)
            && |EventsOf(d.emitted[k..], a)| > 0 && EventsOf(d.emitted[k..], a)[0] == d.emitted[k].event
  {
    hide EventsOf;
    var k := d.since[a];
    var q := Locate(d.emitted[k..], a, 0);
    assert d.emitted[k + q] == d.emitted[k..][q];
    assert SameGroup(d.emitted[k], d.emitted[k + q], a);
    FirstEvent(d.emitted[k..], a);
  }

  lemma StampedGroup(d: Dispatch, a: Asset, k: nat)
    requires |d.emitted| <= U64_LIMIT && GroupAt(d.emitted, a, k)
    ensures WellGrouped(Stamped(d.emitted)[k..], a)
  {
    var tail := Stamped(d.emitted)[k..];
    forall i, h, j | 0 <= i <= h <= j < |tail| && SnapshotOf(tail[i], a) && SnapshotOf(tail[j], a)
      ensures SameGroup(tail[i], tail[h], a)
    {
      StampedRecord(d.emitted, k + i);
      StampedRecord(d.emitted, k + h);
      StampedRecord(d.emitted, k + j);
      assert SameGroup(d.emitted[k + i], d.emitted[k + j], a) && SameGroup(d.emitted[k + h], d.emitted[k + j], a);
    }
  }

  lemma StampedRecord(records: seq<PersistedRecord>, i: nat)
    requires i < |records| <= U64_LIMIT
    ensures var r := Stamped(records)[i];
            && IsSnapshot(r) == IsSnapshot(records[i])
            && (IsSnapshot(r) ==> r.event.asset == records[i].event.asset && KeyOf(r.event) == KeyOf(records[i].event))
  {
    assert Stamped(records)[i] == StampRecord(records[i], i);
  }

  /** Then the live book has the shadow book's levels even if snapshots of the asset share a receive time. */
  lemma SameTimeLiveAgrees(messages: seq<FeedMessage>, a: Asset, s: State)
    requires Ordered(messages) && s.pending.None?
    requires Live(HandleAll(INITIAL, messages), a) && NewGroupAtMark(HandleAll(INITIAL, messages), a)
    ensures var d := HandleAll(INITIAL, messages);
            SameLevels(LiveBook(RunRecords(s, Stamped(d.emitted)), a), d.books[a])
  {
    hide HandleAll, Sent, EventsOf, Fold, LiveBook, RunRecords, InOrder, GroupAt, NumberedFrom, InArrivalOrder,
      SameLevels, GroupThenDeltas, EventTs, WellGrouped, SameGroup;
    var d := HandleAll(INITIAL, messages);
    RunKeepsFaithful(messages);
    assert FaithfulFor(d, a);
    OrderedShape(messages);
    var k, stamped := d.since[a], Stamped(d.emitted);
    var now := if |messages| == 0 then -1 else messages[|messages| - 1].recvUs as int;
    StoredParts(d, a, now);
    MarkIsFirst(d, a);
    StampedGroup(d, a, k);
    LiveFromMark(d, a, k, now, s);
    SameLevelsAsFold(LiveBook(RunRecords(s, stamped), a), d, a);
  }

  lemma NoCheckpoints(records: seq<PersistedRecord>, now: int, k: nat, a: Asset)
    requires k <= |records| <= U64_LIMIT && InOrder(records, now)
    ensures CheckpointsInert(Stamped(records)[k..], a, false)
  {
    forall i | 0 <= i < |records| - k ensures !CheckpointOf(Stamped(records)[k..][i], a) {
      assert Stamped(records)[k..][i] == StampRecord(records[k + i], k + i);
      assert records[k + i].BookRecord? || records[k + i].IngestRecord?;
    }
  }

  lemma LiveFromMark(d: Dispatch, a: Asset, k: nat, now: int, s: State)
    requires InOrder(d.emitted, now)
    requires k < |d.emitted| <= U64_LIMIT && s.pending.None? && SnapshotOf(d.emitted[k], a)
    requires k > 0 ==> !SameGroup(d.emitted[k - 1], d.emitted[k], a)
    requires WellGrouped(Stamped(d.emitted)[k..], a)
             && Fold(EMPTY_BOOK, EventsOf(Stamped(d.emitted)[k..], a), RecvTime).Some?
    ensures Some(LiveBook(RunRecords(s, Stamped(d.emitted)), a))
            == Fold(EMPTY_BOOK, EventsOf(Stamped(d.emitted)[k..], a), RecvTime)
  {
    hide EventsOf, Fold, WellGrouped, LiveBook, RunRecords, KeyOf, InOrder, CheckpointsInert;
    var stamped := Stamped(d.emitted);
    var q := stamped[k..];
    assert stamped == stamped[..k] + q;
    StampedRecord(d.emitted, k);
    if k > 0 {
      StampedRecord(d.emitted, k - 1);
    }
    NoCheckpoints(d.emitted, now, k, a);
    FirstEvent(q, a);
    LiveFromSnapshot(s, stamped[..k], q, a, EMPTY_BOOK);
  }
}
