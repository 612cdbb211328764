/**
 Three reconstructions of one book agree: the dispatcher's shadow book, the live projector fed with the
 stamped output, and a receive-time replay of the stored events.
 */
module Agreement {
  import opened Types
  import opened OrderBook
  import opened EventOrder
  import opened Replay
  import opened ReplayTheorems
  import opened ReadOrder
  import opened LiveState
  import opened LiveReplay
  import opened Dispatcher
  import opened DispatcherTheorems

  // ---------------------------------------------------------------------------------------------
  // Stamping at ingest
  // ---------------------------------------------------------------------------------------------

  function StampEvent(e: BookEvent, ordinal: Option<U64>): BookEvent {
    e.(provenance := e.provenance.(ingestOrdinal := ordinal))
  }

  function StampRecord(r: PersistedRecord, n: U64): PersistedRecord {
    match r
    case BookRecord(e) => BookRecord(StampEvent(e, Some(n)))
    case IngestRecord(i) => IngestRecord(i.(provenance := i.provenance.(ingestOrdinal := Some(n))))
    case TradeRecord(t) => TradeRecord(t.(provenance := t.provenance.(ingestOrdinal := Some(n))))
    case CheckpointRecord(c) => CheckpointRecord(c.(provenance := c.provenance.(ingestOrdinal := Some(n))))
    case ValidationRecord(_) => r
  }

  /**
   The dispatcher's output as it is logged and stored: each record carries its position as ordinal. The
   dispatcher sends only records that have a provenance, so every one of them advances the counter.
   */
  function Stamped(records: seq<PersistedRecord>): seq<PersistedRecord>
    requires |records| <= U64_LIMIT
  {
    seq(|records|, i requires 0 <= i < |records| => StampRecord(records[i], i))
  }

  /** The same events, up to their ordinals. */
  ghost predicate Restamped(x: seq<BookEvent>, y: seq<BookEvent>) {
    |x| == |y| && forall i | 0 <= i < |x| :: x[i] == StampEvent(y[i], x[i].provenance.ingestOrdinal)
  }

  /** The fold does not look at ordinals. */
  lemma FoldIgnoresOrdinals(start: Book, x: seq<BookEvent>, y: seq<BookEvent>)
    requires Restamped(x, y)
    ensures Fold(start, x, RecvTime) == Fold(start, y, RecvTime)
  {
    hide Fold;
    FoldAlike(start, x, y, RecvTime);
  }

  ghost predicate StampedRecords(x: seq<PersistedRecord>, y: seq<PersistedRecord>) {
    |x| == |y| && forall i | 0 <= i < |x| :: IsStamped(x[i], y[i])
  }

  ghost predicate IsStamped(x: PersistedRecord, y: PersistedRecord) {
    exists n: U64 :: x == StampRecord(y, n)
  }

  lemma {:induction false} StampedEvents(x: seq<PersistedRecord>, y: seq<PersistedRecord>, a: Asset)
    requires StampedRecords(x, y)
    ensures Restamped(EventsOf(x, a), EventsOf(y, a))
  {
    if |x| > 0 {
      var n := |x| - 1;
      StampedEvents(x[..n], y[..n], a);
      assert IsStamped(x[n], y[n]);
      var k: U64 :| x[n] == StampRecord(y[n], k);
    }
  }

  lemma StampedSlices(records: seq<PersistedRecord>, k: nat)
    requires k <= |records| <= U64_LIMIT
    ensures StampedRecords(Stamped(records)[k..], records[k..])
  {
    forall i | 0 <= i < |records| - k ensures IsStamped(Stamped(records)[k..][i], records[k..][i]) {
      assert Stamped(records)[k..][i] == StampRecord(records[k..][i], k + i);
    }
  }

  // ---------------------------------------------------------------------------------------------
  // The shape of the output
  // ---------------------------------------------------------------------------------------------

  function MessageKey(m: FeedMessage): SnapshotGroupKey
    requires m.BookMessage?
  {
    SnapshotGroupKey(m.asset, m.recvUs, m.exchangeUs, m.hash)
  }

  /** A record the message can cause: a snapshot event of its own group, or anything but a snapshot event. */
  predicate Announces(r: PersistedRecord, m: FeedMessage, snapshots: bool) {
    && (r.BookRecord? || r.IngestRecord?)
    && r.PartitionTimestampUs() == m.recvUs
    && IsSnapshot(r) == snapshots
    && (snapshots ==> m.BookMessage? && KeyOf(r.event) == MessageKey(m))
  }

  /**
   The message added records of one of the two kinds. Snapshot events come with a snapshot mark where they
   begin, and any other new mark is there too.
   */
  ghost predicate Extends(d: Dispatch, d': Dispatch, m: FeedMessage, snapshots: bool) {
    && Grows(d, d', m, snapshots)
    && (forall a <- d'.since :: (a in d.since && d'.since[a] == d.since[a]) || d'.since[a] == |d.emitted|)
    && (snapshots ==> m.BookMessage? && m.asset in d'.since && d'.since[m.asset] == |d.emitted|)
  }

  ghost predicate Grows(d: Dispatch, d': Dispatch, m: FeedMessage, snapshots: bool) {
    && |d.emitted| <= |d'.emitted|
    && (forall i | 0 <= i < |d.emitted| :: d'.emitted[i] == d.emitted[i])
    && (forall i | |d.emitted| <= i < |d'.emitted| :: Announces(d'.emitted[i], m, snapshots))
  }

  lemma GrowsTwice(a: Dispatch, b: Dispatch, c: Dispatch, m: FeedMessage, snapshots: bool)
    requires Grows(a, b, m, snapshots) && Grows(b, c, m, snapshots)
    ensures Grows(a, c, m, snapshots)
  {
    hide Announces;
  }

  lemma {:induction false} LevelsExtend(d: Dispatch, m: FeedMessage, side: Side, levels: seq<Level>)
    requires m.BookMessage?
    ensures Grows(d, EmitLevels(d, m, side, levels), m, true) && EmitLevels(d, m, side, levels).since == d.since
  {
    if |levels| > 0 {
      LevelsExtend(d, m, side, levels[..|levels| - 1]);
    }
  }

  lemma BookExtends(d: Dispatch, m: FeedMessage) returns (snapshots: bool)
    requires m.BookMessage?
    ensures Extends(d, HandleBook(d, m), m, snapshots)
  {
    hide ParseLevels, ApplySnapshot, EmitLevels, IsStale, IsRetransmit;
    snapshots := Considered(d, m) && SnapshotBook(m).Ok?;
    if snapshots {
      hide Grows;
      var bids, asks := ParseLevels(m.bids).value, ParseLevels(m.asks).value;
      var accepted := AcceptSnapshot(d, m, SnapshotBook(m).value);
      var half := EmitLevels(accepted, m, Bid, bids);
      LevelsExtend(accepted, m, Bid, bids);
      LevelsExtend(half, m, Ask, asks);
      GrowsTwice(accepted, half, EmitLevels(half, m, Ask, asks), m, true);
      GrowsFromSame(accepted, d, HandleBook(d, m), m);
    }
  }

  lemma GrowsFromSame(x: Dispatch, y: Dispatch, d': Dispatch, m: FeedMessage)
    requires Grows(x, d', m, true) && x.emitted == y.emitted
    ensures Grows(y, d', m, true)
  {
    hide Announces;
  }

  lemma OneRecordExtends(d: Dispatch, d': Dispatch, m: FeedMessage, r: PersistedRecord)
    requires d'.emitted == d.emitted + [r] && d'.since == d.since && Announces(r, m, false)
    ensures Extends(d, d', m, false)
  {
  }

  lemma ChangeExtends(d: Dispatch, m: FeedMessage, i: nat)
    requires m.PriceChangeMessage? && i < |m.changes|
    ensures Extends(d, HandleChange(d, m, i), m, false) && HandleChange(d, m, i).since == d.since
  {
    hide ApplyDelta, LastForAsset, Mismatch, ParseSide, ParseLevel, Extends, BestBid, BestAsk;
    var c := m.changes[i];
    var side, level := ParseSide(c.side), ParseLevel(WireLevel(c.price, c.size));
    UnchangedExtends(d, m);
    if side.Some? && level.Some? {
      var sent := EmitBookEvent(d, c.asset, Delta, side.value, level.value, m.recvUs, m.exchangeUs, c.hash);
      OneRecordExtends(d, sent, m, sent.emitted[|d.emitted|]);
      var after := HandleChange(d, m, i);
      if |after.emitted| > |sent.emitted| {
        OneRecordExtends(sent, after, m, after.emitted[|sent.emitted|]);
        ExtendsTwice(d, sent, after, m);
      } else {
        OneRecordExtends(d, after, m, sent.emitted[|d.emitted|]);
      }
    }
  }

  lemma UnchangedExtends(d: Dispatch, m: FeedMessage)
    ensures Extends(d, d, m, false)
  {
  }

  lemma ExtendsTwice(a: Dispatch, b: Dispatch, c: Dispatch, m: FeedMessage)
    requires Extends(a, b, m, false) && Extends(b, c, m, false) && b.since == a.since && c.since == b.since
    ensures Extends(a, c, m, false)
  {
    hide Grows;
    GrowsTwice(a, b, c, m, false);
  }

  lemma {:induction false} ChangesExtend(d: Dispatch, m: FeedMessage, i: nat)
    requires m.PriceChangeMessage? && i <= |m.changes|
    ensures Extends(d, HandleChanges(d, m, i), m, false) && HandleChanges(d, m, i).since == d.since
  {
    hide HandleChange, Extends;
    if i == 0 {
      UnchangedExtends(d, m);
    } else {
      var before := HandleChanges(d, m, i - 1);
      ChangesExtend(d, m, i - 1);
      ChangeExtends(before, m, i - 1);
      ExtendsTwice(d, before, HandleChange(before, m, i - 1), m);
    }
  }

  lemma HandleExtends(d: Dispatch, m: FeedMessage) returns (snapshots: bool)
    ensures Extends(d, Handle(d, m), m, snapshots)
  {
    hide HandleBook, HandleChanges;
    snapshots := false;
    match m {
      case BookMessage(_, _, _, _, _, _) => snapshots := BookExtends(d, m);
      case PriceChangeMessage(_, _, changes) => ChangesExtend(d, m, |changes|);
      case ReconnectStarted(_, _) =>
      case Reconnected(_, _) =>
    }
  }

  predicate SnapshotsOfOneAsset(x: FeedMessage, y: FeedMessage) {
    x.BookMessage? && y.BookMessage? && x.asset == y.asset
  }

  /**
   Receive times never go back, and no two snapshot messages of one asset share one. Other messages may
   arrive at one time.
   */
  ghost predicate Clocked(messages: seq<FeedMessage>) {
    forall i, j | 0 <= i < j < |messages| ::
      && messages[i].recvUs <= messages[j].recvUs
      && (SnapshotsOfOneAsset(messages[i], messages[j]) ==> messages[i].recvUs != messages[j].recvUs)
  }

  function RecvUs(r: PersistedRecord): U64 {
    r.PartitionTimestampUs()
  }

  /** Nothing in the output is later than `now`, and receive times never go back. */
  ghost predicate InOrder(records: seq<PersistedRecord>, now: int) {
    && (forall i | 0 <= i < |records| ::
          (records[i].BookRecord? || records[i].IngestRecord?) && RecvUs(records[i]) <= now)
    && (forall i, j | 0 <= i <= j < |records| :: RecvUs(records[i]) <= RecvUs(records[j]))
  }

  /**
   From the asset's snapshot mark on, its snapshot events are those of one message, received at one time,
   and those before the mark were received earlier.
   */
  ghost predicate MarkedFor(records: seq<PersistedRecord>, a: Asset, mark: nat) {
    && mark <= |records|
    && forall i, j | 0 <= i < |records| && mark <= j < |records| && SnapshotOf(records[i], a)
       && SnapshotOf(records[j], a) ::
         if i < mark then RecvUs(records[i]) < RecvUs(records[j]) else RecvUs(records[i]) == RecvUs(records[j])
  }

  ghost predicate Marked(d: Dispatch) {
    forall a <- d.since :: MarkedFor(d.emitted, a, d.since[a])
  }

  /** Each asset's snapshot groups are contiguous in the output, with distinct receive times. */
  ghost predicate AllWellGrouped(records: seq<PersistedRecord>) {
    forall a :: WellGrouped(records, a)
  }

  /** The asset's snapshot events so far were all received before `recvUs`. */
  ghost predicate SnapshotsBefore(records: seq<PersistedRecord>, a: Asset, recvUs: U64) {
    forall i | 0 <= i < |records| && SnapshotOf(records[i], a) :: RecvUs(records[i]) < recvUs
  }

  ghost predicate NewInOutput(records: seq<PersistedRecord>, m: FeedMessage) {
    m.BookMessage? ==> SnapshotsBefore(records, m.asset, m.recvUs)
  }

  lemma OrderKept(d: Dispatch, d': Dispatch, m: FeedMessage, snapshots: bool, now: int)
    requires InOrder(d.emitted, now) && now <= m.recvUs && Extends(d, d', m, snapshots)
    ensures InOrder(d'.emitted, m.recvUs)
  {
  }

  lemma MarksKept(d: Dispatch, d': Dispatch, m: FeedMessage, snapshots: bool)
    requires Marked(d) && Extends(d, d', m, snapshots) && NewInOutput(d.emitted, m)
    ensures Marked(d')
  {
    hide MarkedFor;
    forall a | a in d'.since ensures MarkedFor(d'.emitted, a, d'.since[a]) {
      if snapshots && a == m.asset {
        MarkOfMessage(d, d', m);
      } else if a in d.since && d'.since[a] == d.since[a] {
        assert MarkedFor(d.emitted, a, d.since[a]);
        OtherMarkKept(d, d', m, snapshots, a, d.since[a]);
      } else {
        NoneBehindMark(d, d', m, snapshots, a);
      }
    }
  }

  lemma MarkOfMessage(d: Dispatch, d': Dispatch, m: FeedMessage)
    requires m.BookMessage? && Grows(d, d', m, true) && SnapshotsBefore(d.emitted, m.asset, m.recvUs)
    ensures MarkedFor(d'.emitted, m.asset, |d.emitted|)
  {
  }

  lemma OtherMarkKept(d: Dispatch, d': Dispatch, m: FeedMessage, snapshots: bool, a: Asset, mark: nat)
    requires MarkedFor(d.emitted, a, mark) && Grows(d, d', m, snapshots)
             && (snapshots ==> m.BookMessage? && m.asset != a)
    ensures MarkedFor(d'.emitted, a, mark)
  {
    NoSnapshotAdded(d, d', m, snapshots, a);
  }

  lemma NoneBehindMark(d: Dispatch, d': Dispatch, m: FeedMessage, snapshots: bool, a: Asset)
    requires Grows(d, d', m, snapshots) && (snapshots ==> m.BookMessage? && m.asset != a)
    ensures MarkedFor(d'.emitted, a, |d.emitted|)
  {
    NoSnapshotAdded(d, d', m, snapshots, a);
  }

  /** A message adds no snapshot event of an asset that it is not a snapshot of. */
  lemma NoSnapshotAdded(d: Dispatch, d': Dispatch, m: FeedMessage, snapshots: bool, a: Asset)
    requires Grows(d, d', m, snapshots) && (snapshots ==> m.BookMessage? && m.asset != a)
    ensures forall i | |d.emitted| <= i < |d'.emitted| :: !SnapshotOf(d'.emitted[i], a)
  {
    forall i | |d.emitted| <= i < |d'.emitted| ensures !SnapshotOf(d'.emitted[i], a) {
      assert Announces(d'.emitted[i], m, snapshots);
    }
  }

  lemma GroupsKept(d: Dispatch, d': Dispatch, m: FeedMessage, snapshots: bool)
    requires AllWellGrouped(d.emitted) && Grows(d, d', m, snapshots) && NewInOutput(d.emitted, m)
    ensures AllWellGrouped(d'.emitted)
  {
    hide WellGrouped;
    forall a ensures WellGrouped(d'.emitted, a) {
      assert WellGrouped(d.emitted, a);
      GroupsOfAssetKept(d, d', m, snapshots, a);
    }
  }

  lemma GroupsOfAssetKept(d: Dispatch, d': Dispatch, m: FeedMessage, snapshots: bool, a: Asset)
    requires WellGrouped(d.emitted, a) && Grows(d, d', m, snapshots) && NewInOutput(d.emitted, m)
    ensures WellGrouped(d'.emitted, a)
  {
    hide Grows, SameGroup;
    var all := d'.emitted;
    forall i, k, j | 0 <= i <= k <= j < |all| && SnapshotOf(all[i], a) && SnapshotOf(all[j], a)
           && RecvUs(all[i]) == RecvUs(all[j])
      ensures SameGroup(all[i], all[k], a)
    {
      SpanKept(d, d', m, snapshots, a, i, k, j);
    }
  }

  lemma SpanKept(d: Dispatch, d': Dispatch, m: FeedMessage, snapshots: bool, a: Asset, i: nat, k: nat, j: nat)
    requires WellGrouped(d.emitted, a) && Grows(d, d', m, snapshots) && NewInOutput(d.emitted, m)
    requires var all := d'.emitted;
             i <= k <= j < |all| && SnapshotOf(all[i], a) && SnapshotOf(all[j], a) && RecvUs(all[i]) == RecvUs(all[j])
    ensures SameGroup(d'.emitted[i], d'.emitted[k], a)
  {
    var old_, all := d.emitted, d'.emitted;
    if j < |old_| {
      assert old_[i] == all[i] && old_[k] == all[k] && old_[j] == all[j];
    } else {
      assert Announces(all[j], m, snapshots);
      assert |old_| <= i;
      assert Announces(all[i], m, snapshots) && Announces(all[k], m, snapshots);
    }
  }

  /** Every snapshot event in the output is of some message's group. */
  ghost predicate CameFrom(records: seq<PersistedRecord>, messages: seq<FeedMessage>) {
    forall i | 0 <= i < |records| && IsSnapshot(records[i]) :: HasMessage(records[i], messages)
  }

  ghost predicate HasMessage(r: PersistedRecord, messages: seq<FeedMessage>)
    requires IsSnapshot(r)
  {
    exists k | 0 <= k < |messages| :: messages[k].BookMessage? && KeyOf(r.event) == MessageKey(messages[k])
  }

  lemma CameFromKept(d: Dispatch, d': Dispatch, messages: seq<FeedMessage>, snapshots: bool)
    requires |messages| > 0 && CameFrom(d.emitted, messages[..|messages| - 1])
    requires Grows(d, d', messages[|messages| - 1], snapshots)
    ensures CameFrom(d'.emitted, messages)
  {
    var n := |messages| - 1;
    forall i | 0 <= i < |d'.emitted| && IsSnapshot(d'.emitted[i]) ensures HasMessage(d'.emitted[i], messages) {
      if i < |d.emitted| {
        assert HasMessage(d.emitted[i], messages[..n]);
        var k :| 0 <= k < n && messages[..n][k].BookMessage?
            && KeyOf(d.emitted[i].event) == MessageKey(messages[..n][k]);
        assert messages[k] == messages[..n][k];
      } else {
        assert Announces(d'.emitted[i], messages[n], snapshots);
      }
    }
  }

  lemma NextIsNew(records: seq<PersistedRecord>, messages: seq<FeedMessage>)
    requires |messages| > 0 && Clocked(messages) && CameFrom(records, messages[..|messages| - 1])
    ensures NewInOutput(records, messages[|messages| - 1])
  {
    var n := |messages| - 1;
    var m := messages[n];
    if m.BookMessage? {
      forall i | 0 <= i < |records| && SnapshotOf(records[i], m.asset) ensures RecvUs(records[i]) < m.recvUs {
        assert HasMessage(records[i], messages[..n]);
        var k :| 0 <= k < n && messages[..n][k].BookMessage? && KeyOf(records[i].event) == MessageKey(messages[..n][k]);
        assert SnapshotsOfOneAsset(messages[k], messages[n]);
      }
    }
  }

  /** Clocked messages give an ordered output with marked and contiguous snapshot groups. */
  lemma {:induction false} OutputShape(messages: seq<FeedMessage>)
    requires Clocked(messages)
    ensures var d := HandleAll(INITIAL, messages);
            && InOrder(d.emitted, if |messages| == 0 then -1 else messages[|messages| - 1].recvUs)
            && Marked(d) && AllWellGrouped(d.emitted) && CameFrom(d.emitted, messages)
  {
    if |messages| > 0 {
      hide Handle, InOrder, Marked, AllWellGrouped, Grows, CameFrom, NewInOutput;
      var n := |messages| - 1;
      OutputShape(messages[..n]);
      var before := HandleAll(INITIAL, messages[..n]);
      var snapshots := HandleExtends(before, messages[n]);
      var now := if n == 0 then -1 else messages[n - 1].recvUs as int;
      NextIsNew(before.emitted, messages);
      OrderKept(before, Handle(before, messages[n]), messages[n], snapshots, now);
      MarksKept(before, Handle(before, messages[n]), messages[n], snapshots);
      GroupsKept(before, Handle(before, messages[n]), messages[n], snapshots);
      CameFromKept(before, Handle(before, messages[n]), messages, snapshots);
    }
  }

  // ---------------------------------------------------------------------------------------------
  // The live book forgets what a snapshot replaces
  // ---------------------------------------------------------------------------------------------

  /** A history that begins with a snapshot event does not depend on the book it starts from. */
  lemma {:induction false} FoldForgetsStart(x: Book, y: Book, events: seq<BookEvent>, mode: ReplayMode)
    requires |events| > 0 && events[0].kind == Snapshot
    ensures Fold(x, events, mode) == Fold(y, events, mode)
    decreases |events|
  {
    hide ApplySnapshotEvents, ApplyDeltaEvent, EventTs;
    var n := |events| - 1;
    if events[n].kind == Delta {
      FoldForgetsStart(x, y, events[..n], mode);
    } else {
      var g := RunStart(events, n, mode);
      if g > 0 {
        FoldForgetsStart(x, y, events[..g], mode);
      }
    }
  }

  /** A record that flushes the pending group finds the same state whether or not it was flushed before. */
  lemma {:induction false} FlushFirst(s: State, records: seq<PersistedRecord>)
    requires |records| > 0 && (s.pending.Some? ==> Flushes(s, records[0]))
    ensures RunRecords(s, records) == RunRecords(Materialize(s), records)
  {
    var n := |records| - 1;
    if n == 0 {
      hide MaterializedAsset;
      assert records[..0] == [];
    } else {
      hide ApplyRecord, Materialize, Flushes;
      FlushFirst(s, records[..n]);
    }
  }

  /** Only a snapshot record leaves a group pending, and it is its own. */
  lemma PendingIsLast(s: State, records: seq<PersistedRecord>)
    requires s.pending.None? && RunRecords(s, records).pending.Some?
    ensures |records| > 0 && SnapshotOf(records[|records| - 1], RunRecords(s, records).pending.value.key.asset)
    ensures KeyOf(records[|records| - 1].event) == RunRecords(s, records).pending.value.key
  {
    hide MaterializedAsset, DeltaAsset, CheckpointAsset;
  }

  /**
   When the later part of a stream begins with the asset's own snapshot event and does not continue a group
   that is pending there, the live book is the fold of the later part alone.
   */
  lemma LiveFromSnapshot(s: State, p: seq<PersistedRecord>, q: seq<PersistedRecord>, a: Asset, start: Book)
    requires s.pending.None? && |q| > 0 && SnapshotOf(q[0], a) && WellGrouped(q, a) && CheckpointsInert(q, a, false)
    requires |p| > 0 ==> !SameGroup(p[|p| - 1], q[0], a)
    requires Fold(start, EventsOf(q, a), RecvTime).Some? && |EventsOf(q, a)| > 0 && EventsOf(q, a)[0] == q[0].event
    ensures Some(LiveBook(RunRecords(s, p + q), a)) == Fold(start, EventsOf(q, a), RecvTime)
  {
    hide Fold, WellGrouped, LiveBook, ApplyRecord, Materialize, EventsOf;
    var t := RunRecords(s, p);
    RunConcat(s, p, q);
    if t.pending.Some? {
      PendingIsLast(s, p);
    }
    FlushFirst(t, q);
    assert Materialize(t).pending.None? by {
      NothingPending(t);
    }
    FoldForgetsStart(start, AssetOrNew(Materialize(t).assets, a).book, EventsOf(q, a), RecvTime);
    LiveIsFold(Materialize(t), q, a);
  }

  lemma NothingPending(s: State)
    ensures Materialize(s).pending.None?
  {
  }

  // ---------------------------------------------------------------------------------------------
  // Replay forgets what is before the last snapshot
  // ---------------------------------------------------------------------------------------------

  lemma {:induction false} LastSeekableInSuffix(events: seq<BookEvent>, k: nat, n: nat, target: int)
    requires k <= n <= |events| && LastSeekable(events[k..], n - k, target, RecvTime, None).Some?
    ensures LastSeekable(events, n, target, RecvTime, None)
            == Some(k + LastSeekable(events[k..], n - k, target, RecvTime, None).value)
    decreases n
  {
    if !Seekable(events[n - 1], target, RecvTime, None) {
      LastSeekableInSuffix(events, k, n - 1, target);
    }
  }

  /** The snapshot events of the earlier part were received before those of the later part. */
  ghost predicate SnapshotsEarlier(a: seq<BookEvent>, b: seq<BookEvent>) {
    forall x <- a, y <- b | x.kind == Snapshot && y.kind == Snapshot ::
      x.provenance.recvTimestampUs < y.provenance.recvTimestampUs
  }

  /** Seeking in a longer history finds the same book. */
  lemma StartInSuffix(a: seq<BookEvent>, b: seq<BookEvent>, target: U64)
    requires LastSeekable(b, |b|, target, RecvTime, None).Some? && SnapshotsEarlier(a, b)
    ensures var s, t := Start(a + b, target, RecvTime, None, None), Start(b, target, RecvTime, None, None);
            s == if t.Ok? then Ok((t.value.0, t.value.1 + |a|)) else t
  {
    hide ApplySnapshotEvents, Filter;
    assert (a + b)[|a|..] == b;
    LastSeekableInSuffix(a + b, |a|, |a + b|, target);
    var idx := LastSeekable(b, |b|, target, RecvTime, None).value;
    var ts := EventTs(b[idx], RecvTime);
    var keep := (e: BookEvent) => SnapshotAt(e, ts, RecvTime) && AtOrAfter(e.provenance.recvTimestampUs, None);
    assert b[idx] in b;
    NoneLeft(a, keep);
    FilterConcat(a, b, keep);
    assert [] + Filter(b, keep) == Filter(b, keep);
  }

  /** What the replayed part of the history must be. */
  ghost predicate Replayable(events: seq<BookEvent>, target: U64) {
    && |events| > 0 && events[0].kind == Snapshot
    && NumberedFrom(events, 0) && Contiguous(events, RecvTime) && TimeSorted(events, RecvTime)
    && Fold(EMPTY_BOOK, events, RecvTime).Some?
    && (forall e <- events :: e.provenance.recvTimestampUs <= target)
  }

  /** Seeking into a numbered history, then looping, ends quietly at its fold. */
  lemma SeekedReplayIsQuiet(asset: Asset, events: seq<BookEvent>, target: U64)
    requires Replayable(events, target)
    ensures LastSeekable(events, |events|, target, RecvTime, None).Some?
    ensures var start := Start(events, target, RecvTime, None, None);
            && start.Ok?
            && ReplayFrom(asset, events, start.value.1, target, RecvTime, start.value.0)
               == Done(Fold(EMPTY_BOOK, events, RecvTime).value, [])
  {
    hide Fold, Start, ReplayFrom, LastSeekable, SeekCovered, Contiguous, TimeSorted, NumberedFrom;
    assert events[0] in events;
    assert Seekable(events[0], target, RecvTime, None);
    var idx := LastSeekable(events, |events|, target, RecvTime, None).value;
    WholeHistoryUpTo(events, target);
    ContiguousMeansCovered(events, idx, target, RecvTime);
    StartIsFold(events, idx, target, RecvTime);
    forall i | idx < i < |events| ensures events[i].kind == Delta {
      assert events[i] in events;
      assert !Seekable(events[i], target, RecvTime, None);
    }
    assert forall i | 0 <= i < |events| :: events[i] in events;
    QuietlyReaches(asset, events, idx + 1, 0, target, RecvTime, EMPTY_BOOK);
    NumberedReplaysQuietly(asset, events, 0, target, RecvTime, EMPTY_BOOK);
  }

  /** Replay of stored events whose last part is numbered from a snapshot: the fold of that part, without a gap. */
  lemma ReplayFromSnapshot(asset: Asset, a: seq<BookEvent>, b: seq<BookEvent>, target: U64, window: Window)
    requires Replayable(b, target) && InArrivalOrder(a + b) && multiset(window.bookEvents) == multiset(a + b)
    requires SnapshotsEarlier(a, b)
    requires AtOrAfter(b[0].provenance.recvTimestampUs, LatestReset(window.ingestEvents, target))
    ensures var r := Reconstruct(asset, target, RecvTime, None, window);
            && r.Ok? && Some(r.value.book) == Fold(EMPTY_BOOK, b, RecvTime)
            && r.value.notices == CrossedNotices(asset, r.value.book)
  {
    hide Fold, SortEvents, Start, ReplayFrom, LatestReset, CrossedNotices, InArrivalOrder, EqualMeansSame, NumberedFrom,
      Contiguous, LastSeekable;
    var events, reset := a + b, LatestReset(window.ingestEvents, target);
    ArrivalOrderIsSorted(events);
    ReadOrderIrrelevant(asset, target, RecvTime, None, Window(events, window.ingestEvents), window);
    SeekedReplayIsQuiet(asset, b, target);
    StartInSuffix(a, b, target);
    ResetBeforeSeek(a, b, target, reset);
    var start := Start(b, target, RecvTime, None, None).value;
    assert events[|a|..] == b;
    LoopOfSuffix(asset, events, |a|, start.1, target, RecvTime, start.0);
    var notices := CrossedNotices(asset, Fold(EMPTY_BOOK, b, RecvTime).value);
    assert [] + notices == notices;
  }

  /** If every snapshot event is before the reset, replay has nothing to start from. */
  lemma ReplayFindsNothing(asset: Asset, target: U64, mode: ReplayMode, window: Window)
    requires forall e <- window.bookEvents | e.kind == Snapshot ::
               !AtOrAfter(e.provenance.recvTimestampUs, LatestReset(window.ingestEvents, target))
    ensures Reconstruct(asset, target, mode, None, window) == Err(NoSnapshotFound)
  {
    hide SortEvents, LatestReset, AtOrAfter, LastSeekable, ReplayFrom;
    var events, reset := SortEvents(window.bookEvents, mode), LatestReset(window.ingestEvents, target);
    SortCorrect(window.bookEvents, mode);
    forall i | 0 <= i < |events| ensures !Seekable(events[i], target, mode, reset) {
      assert events[i] in multiset(events);
    }
    assert LastSeekable(events, |events|, target, mode, reset).None?;
  }

  lemma ResetBeforeSeek(a: seq<BookEvent>, b: seq<BookEvent>, target: U64, reset: Option<U64>)
    requires LastSeekable(b, |b|, target, RecvTime, None).Some? && TimeSorted(b, RecvTime)
    requires AtOrAfter(b[0].provenance.recvTimestampUs, reset)
    ensures Start(a + b, target, RecvTime, None, reset) == Start(a + b, target, RecvTime, None, None)
  {
    hide Start, LastSeekable;
    assert (a + b)[|a|..] == b;
    LastSeekableInSuffix(a + b, |a|, |a + b|, target);
    var idx := LastSeekable(b, |b|, target, RecvTime, None).value;
    assert EventTs(b[0], RecvTime) <= EventTs(b[idx], RecvTime);
    EarlyResetIgnored(a + b, target, RecvTime, reset);
  }

  // ---------------------------------------------------------------------------------------------
  // The three books
  // ---------------------------------------------------------------------------------------------

  lemma StampedShape(records: seq<PersistedRecord>, now: int)
    requires |records| <= U64_LIMIT && InOrder(records, now) && AllWellGrouped(records)
    ensures InOrder(Stamped(records), now) && AllWellGrouped(Stamped(records))
  {
    var stamped := Stamped(records);
    forall a ensures WellGrouped(stamped, a) {
      assert WellGrouped(records, a);
      forall i, k, j | 0 <= i <= k <= j < |stamped| && SnapshotOf(stamped[i], a) && SnapshotOf(stamped[j], a)
                       && stamped[i].event.provenance.recvTimestampUs == stamped[j].event.provenance.recvTimestampUs
        ensures SameGroup(stamped[i], stamped[k], a)
      {
        assert SnapshotOf(records[i], a) && SnapshotOf(records[j], a);
        assert SameGroup(records[i], records[k], a);
      }
    }
  }

  /** The stamped events of an asset are in arrival order. */
  lemma StampedInArrivalOrder(records: seq<PersistedRecord>, now: int, a: Asset)
    requires |records| <= U64_LIMIT && InOrder(records, now)
    ensures InArrivalOrder(EventsOf(Stamped(records), a))
  {
    hide EventsOf;
    var stamped := Stamped(records);
    var events := EventsOf(stamped, a);
    forall i | 0 <= i < |events| ensures events[i].provenance.ingestOrdinal.Some? {
      var p := Locate(stamped, a, i);
    }
    forall i, j | 0 <= i < j < |events|
      ensures events[i].provenance.ingestOrdinal.value < events[j].provenance.ingestOrdinal.value
      ensures events[i].provenance.recvTimestampUs <= events[j].provenance.recvTimestampUs
    {
      var p := Locate(stamped, a, i);
      var q := Locate(stamped, a, j);
      if q < p {
        CountMonotone(stamped, a, q, p);
      }
      assert p < q;
      assert stamped[p] == StampRecord(records[p], p) && stamped[q] == StampRecord(records[q], q);
      assert RecvUs(records[p]) <= RecvUs(records[q]);
    }
  }

  /**
   Where the asset's last accepted snapshot begins in the output: all of the asset's events from there on
   are the sent ones, and its snapshot events before were received earlier.
   */
  lemma SnapshotPosition(d: Dispatch, a: Asset) returns (p: nat)
    requires a in d.since && d.since[a] <= |d.emitted| && MarkedFor(d.emitted, a, d.since[a])
    requires |Sent(d, a)| > 0 && Sent(d, a)[0].kind == Snapshot
    ensures d.since[a] <= p && SnapshotBegins(d, a, p)
  {
    hide EventsOf, MarkedFor;
    var k := d.since[a];
    var tail := d.emitted[k..];
    var q := Locate(tail, a, 0);
    p := k + q;
    EventsOfConcat(tail[..q], tail[q..], a);
    assert tail == tail[..q] + tail[q..] && tail[q..] == d.emitted[p..];
    Nothing(EventsOf(tail[..q], a), EventsOf(tail[q..], a));
    forall i | 0 <= i < p && SnapshotOf(d.emitted[i], a) ensures RecvUs(d.emitted[i]) < RecvUs(d.emitted[p]) {
      NoneAfterMark(d.emitted, a, k, q, i);
      EarlierThanMark(d.emitted, a, k, i, p);
    }
  }

  lemma EarlierThanMark(records: seq<PersistedRecord>, a: Asset, mark: nat, i: nat, p: nat)
    requires MarkedFor(records, a, mark) && i < mark <= p < |records| && SnapshotOf(records[i], a)
             && SnapshotOf(records[p], a)
    ensures RecvUs(records[i]) < RecvUs(records[p])
  {
  }

  lemma Nothing<T>(x: seq<T>, y: seq<T>)
    requires |x| == 0
    ensures x + y == y
  {
  }

  /** Records before the first event are not events. */
  lemma NoneBefore(records: seq<PersistedRecord>, a: Asset, q: nat, i: nat)
    requires i < q <= |records| && |EventsOf(records[..q], a)| == 0
    ensures !(records[i].BookRecord? && records[i].event.asset == a)
  {
    if records[i].BookRecord? && records[i].event.asset == a {
      EventsOfStep(records, a, i);
      CountMonotone(records, a, i + 1, q);
    }
  }

  lemma NoneAfterMark(records: seq<PersistedRecord>, a: Asset, k: nat, q: nat, i: nat)
    requires k + q <= |records| && |EventsOf(records[k..][..q], a)| == 0 && i < k + q && SnapshotOf(records[i], a)
    ensures i < k
  {
    if k <= i {
      assert records[k..][i - k] == records[i];
      NoneBefore(records[k..], a, q, i - k);
    }
  }

  lemma WellGroupedSuffix(records: seq<PersistedRecord>, p: nat, a: Asset)
    requires p <= |records| && WellGrouped(records, a)
    ensures WellGrouped(records[p..], a)
  {
    var tail := records[p..];
    forall i, k, j | 0 <= i <= k <= j < |tail| && SnapshotOf(tail[i], a) && SnapshotOf(tail[j], a)
                     && tail[i].event.provenance.recvTimestampUs == tail[j].event.provenance.recvTimestampUs
      ensures SameGroup(tail[i], tail[k], a)
    {
      assert tail[i] == records[p + i] && tail[k] == records[p + k] && tail[j] == records[p + j];
    }
  }

  /** An event of the asset is one of the records. */
  lemma EventHasRecord(records: seq<PersistedRecord>, a: Asset, e: BookEvent) returns (i: nat)
    requires e in EventsOf(records, a)
    ensures i < |records| && records[i] == BookRecord(e) && e.asset == a
  {
    var events := EventsOf(records, a);
    var k :| 0 <= k < |events| && events[k] == e;
    i := Locate(records, a, k);
  }

  /** The asset's snapshot events before the position are earlier than those from it on. */
  lemma EventsSplit(records: seq<PersistedRecord>, a: Asset, p: nat, now: int)
    requires InOrder(records, now) && p < |records| && OlderBefore(records, a, p)
    ensures EventsOf(records, a) == EventsOf(records[..p], a) + EventsOf(records[p..], a)
    ensures SnapshotsEarlier(EventsOf(records[..p], a), EventsOf(records[p..], a))
  {
    hide EventsOf, OlderBefore;
    EventsOfConcat(records[..p], records[p..], a);
    assert records == records[..p] + records[p..];
    forall x <- EventsOf(records[..p], a), y <- EventsOf(records[p..], a) | x.kind == Snapshot && y.kind == Snapshot
      ensures x.provenance.recvTimestampUs < y.provenance.recvTimestampUs
    {
      var i := EventHasRecord(records[..p], a, x);
      var j := EventHasRecord(records[p..], a, y);
      assert records[i] == BookRecord(x) && records[p + j] == BookRecord(y);
      OlderThanLater(records, a, p, now, i, p + j);
    }
  }

  lemma OlderThanLater(records: seq<PersistedRecord>, a: Asset, p: nat, now: int, i: nat, j: nat)
    requires InOrder(records, now) && i < p <= j < |records| && OlderBefore(records, a, p) && SnapshotOf(records[i], a)
    ensures RecvUs(records[i]) < RecvUs(records[j])
  {
  }

  /** The stored form of the sent events can be replayed from its start. */
  lemma StoredIsReplayable(records: seq<PersistedRecord>, sent: seq<BookEvent>, a: Asset, now: int, target: U64)
    requires InOrder(records, now) && now <= target && WellGrouped(records, a)
    requires Restamped(EventsOf(records, a), sent) && InArrivalOrder(EventsOf(records, a))
    requires |sent| > 0 && sent[0].kind == Snapshot && NumberedFrom(sent, 0) && Fold(EMPTY_BOOK, sent, RecvTime).Some?
    ensures Replayable(EventsOf(records, a), target)
    ensures Fold(EMPTY_BOOK, EventsOf(records, a), RecvTime) == Fold(EMPTY_BOOK, sent, RecvTime)
  {
    hide EventsOf, Fold, WellGrouped;
    var events := EventsOf(records, a);
    FoldIgnoresOrdinals(EMPTY_BOOK, events, sent);
    WellGroupedMeansContiguous(records, a);
    forall e <- events ensures e.provenance.recvTimestampUs <= target {
      var i := EventHasRecord(records, a, e);
    }
    assert forall i | 0 <= i < |events| :: events[i] == StampEvent(sent[i], events[i].provenance.ingestOrdinal);
  }

  /** The situation after a run whose last accepted snapshot of the asset had levels. */
  ghost predicate Live(d: Dispatch, a: Asset) {
    && a in d.books && |d.emitted| <= U64_LIMIT
    && |Sent(d, a)| > 0 && Sent(d, a)[0].kind == Snapshot
  }

  lemma ArrivalOrderSuffix(x: seq<BookEvent>, y: seq<BookEvent>)
    requires InArrivalOrder(x + y)
    ensures InArrivalOrder(y)
  {
    assert forall i | 0 <= i < |y| :: y[i] == (x + y)[|x| + i];
  }

  lemma OrderSuffix(records: seq<PersistedRecord>, p: nat, now: int)
    requires p <= |records| && InOrder(records, now)
    ensures InOrder(records[p..], now)
  {
    assert forall i | 0 <= i < |records| - p :: records[p..][i] == records[p + i];
  }

  lemma {:induction false} FirstEvent(records: seq<PersistedRecord>, a: Asset)
    requires |records| > 0 && records[0].BookRecord? && records[0].event.asset == a
    ensures |EventsOf(records, a)| > 0 && EventsOf(records, a)[0] == records[0].event
  {
    if |records| == 1 {
      assert records[..0] == [];
    } else {
      FirstEvent(records[..|records| - 1], a);
    }
  }

  /** Position `p` of the output holds the first sent event, and earlier snapshot events of the asset are older. */
  ghost predicate SnapshotBegins(d: Dispatch, a: Asset, p: nat) {
    && p < |d.emitted| && |Sent(d, a)| > 0
    && d.emitted[p] == BookRecord(Sent(d, a)[0]) && Sent(d, a)[0].asset == a && Sent(d, a)[0].kind == Snapshot
    && EventsOf(d.emitted[p..], a) == Sent(d, a)
    && OlderBefore(d.emitted, a, p)
  }

  /** The asset's snapshot events before the position were received earlier. */
  ghost predicate OlderBefore(records: seq<PersistedRecord>, a: Asset, p: nat)
    requires p < |records|
  {
    forall i | 0 <= i < p && SnapshotOf(records[i], a) :: RecvUs(records[i]) < RecvUs(records[p])
  }

  lemma StampedOlder(records: seq<PersistedRecord>, a: Asset, p: nat)
    requires p < |records| <= U64_LIMIT && OlderBefore(records, a, p)
    ensures OlderBefore(Stamped(records), a, p)
  {
    forall i | 0 <= i <= p
      ensures RecvUs(Stamped(records)[i]) == RecvUs(records[i])
              && SnapshotOf(Stamped(records)[i], a) == SnapshotOf(records[i], a)
    {
      assert Stamped(records)[i] == StampRecord(records[i], i);
    }
  }

  /** The same for the stamped output: what is logged and stored from that position on. */
  lemma StampedFrom(d: Dispatch, a: Asset, p: nat, now: int, target: U64)
    requires Live(d, a) && FaithfulFor(d, a) && SnapshotBegins(d, a, p)
    requires InOrder(d.emitted, now) && now <= target && AllWellGrouped(d.emitted)
    ensures var stamped := Stamped(d.emitted);
            var later := EventsOf(stamped[p..], a);
            && InOrder(stamped, now) && WellGrouped(stamped[p..], a)
            && OlderBefore(stamped, a, p) && Replayable(later, target) && Restamped(later, Sent(d, a))
            && Fold(EMPTY_BOOK, later, RecvTime) == Fold(EMPTY_BOOK, Sent(d, a), RecvTime)
            && EventsOf(stamped, a) == EventsOf(stamped[..p], a) + later
            && SnapshotsEarlier(EventsOf(stamped[..p], a), later)
            && InArrivalOrder(EventsOf(stamped, a))
  {
    hide Sent, EventsOf, Fold, NumberedFrom, WellGrouped, Restamped, InArrivalOrder, Replayable, SameLevels;
    var stamped := Stamped(d.emitted);
    StampedShape(d.emitted, now);
    StampedInArrivalOrder(d.emitted, now, a);
    StampedOlder(d.emitted, a, p);
    EventsSplit(stamped, a, p, now);
    StampedSlices(d.emitted, p);
    StampedEvents(stamped[p..], d.emitted[p..], a);
    ArrivalOrderSuffix(EventsOf(stamped[..p], a), EventsOf(stamped[p..], a));
    OrderSuffix(stamped, p, now);
    assert WellGrouped(stamped, a);
    WellGroupedSuffix(stamped, p, a);
    StoredIsReplayable(stamped[p..], Sent(d, a), a, now, target);
  }

  lemma LiveAgrees(d: Dispatch, a: Asset, p: nat, now: int, s: State)
    requires SnapshotBegins(d, a, p) && |d.emitted| <= U64_LIMIT && s.pending.None?
    requires var stamped := Stamped(d.emitted);
             && InOrder(stamped, now) && WellGrouped(stamped[p..], a)
             && OlderBefore(stamped, a, p) && Fold(EMPTY_BOOK, EventsOf(stamped[p..], a), RecvTime).Some?
    ensures var stamped := Stamped(d.emitted);
            Some(LiveBook(RunRecords(s, stamped), a)) == Fold(EMPTY_BOOK, EventsOf(stamped[p..], a), RecvTime)
  {
    hide Sent, EventsOf, Fold, WellGrouped, LiveBook, RunRecords, LevelsOf;
    var stamped := Stamped(d.emitted);
    assert stamped == stamped[..p] + stamped[p..];
    var q := stamped[p..];
    assert q[0] == StampRecord(d.emitted[p], p);
    FirstEvent(q, a);
    assert forall i | 0 <= i < |q| :: q[i] == stamped[p + i];
    assert p > 0 && SnapshotOf(stamped[p - 1], a) ==> RecvUs(stamped[p - 1]) < RecvUs(stamped[p]);
    LiveFromSnapshot(s, stamped[..p], q, a, EMPTY_BOOK);
  }

  /** From the snapshot on, the asset's snapshot events share its receive time; before, they are older. */
  lemma NoLaterSnapshot(d: Dispatch, a: Asset, e: BookEvent)
    requires a in d.since && MarkedFor(d.emitted, a, d.since[a]) && Live(d, a)
    requires e in EventsOf(Stamped(d.emitted), a) && e.kind == Snapshot
    ensures e.provenance.recvTimestampUs <= Sent(d, a)[0].provenance.recvTimestampUs
  {
    hide EventsOf, MarkedFor;
    var i := EventHasRecord(Stamped(d.emitted), a, e);
    assert Stamped(d.emitted)[i] == StampRecord(d.emitted[i], i);
    var p := SnapshotPosition(d, a);
    SnapshotOrder(d.emitted, a, d.since[a], i, p);
  }

  lemma SnapshotOrder(records: seq<PersistedRecord>, a: Asset, mark: nat, i: nat, p: nat)
    requires MarkedFor(records, a, mark) && i < |records| && mark <= p < |records|
    requires SnapshotOf(records[i], a) && SnapshotOf(records[p], a)
    ensures RecvUs(records[i]) <= RecvUs(records[p])
  {
  }

  /**
   After any run of clocked messages, the live projector fed with the stamped output has exactly the levels
   of the dispatcher's shadow book, provided the asset's last accepted snapshot had levels. The replay of
   the stored events, read back in any order, gives that same book without a gap if no continuity reset
   came after that snapshot, and finds nothing to start from if one did.
   */
  lemma ThreeBooksAgree(messages: seq<FeedMessage>, a: Asset, s: State, target: U64, window: Window)
    requires Clocked(messages) && (forall m <- messages :: m.recvUs <= target)
    requires Live(HandleAll(INITIAL, messages), a) && s.pending.None?
    requires multiset(window.bookEvents) == multiset(EventsOf(Stamped(HandleAll(INITIAL, messages).emitted), a))
    ensures var d := HandleAll(INITIAL, messages);
            var live := LiveBook(RunRecords(s, Stamped(d.emitted)), a);
            var r := Reconstruct(a, target, RecvTime, None, window);
            && SameLevels(live, d.books[a])
            && if AtOrAfter(Sent(d, a)[0].provenance.recvTimestampUs, LatestReset(window.ingestEvents, target))
               then r.Ok? && r.value.book == live && r.value.notices == CrossedNotices(a, live)
               else r == Err(NoSnapshotFound)
  {
    hide HandleAll, Sent, EventsOf, Fold, Reconstruct, LiveBook, RunRecords, LatestReset, InOrder, MarkedFor,
      AllWellGrouped, NumberedFrom, InArrivalOrder, Replayable, WellGrouped, CrossedNotices, SameLevels, OlderBefore,
      SnapshotsEarlier;
    var d := HandleAll(INITIAL, messages);
    var now := if |messages| == 0 then -1 else messages[|messages| - 1].recvUs as int;
    RunKeepsFaithful(messages);
    assert FaithfulFor(d, a);
    OutputShape(messages);
    var p := SnapshotPosition(d, a);
    StampedFrom(d, a, p, now, target);
    LiveAgrees(d, a, p, now, s);
    var stamped := Stamped(d.emitted);
    var later := EventsOf(stamped[p..], a);
    assert later[0] == StampEvent(Sent(d, a)[0], later[0].provenance.ingestOrdinal);
    if AtOrAfter(Sent(d, a)[0].provenance.recvTimestampUs, LatestReset(window.ingestEvents, target)) {
      ReplayFromSnapshot(a, EventsOf(stamped[..p], a), later, target, window);
    } else {
      forall e <- window.bookEvents | e.kind == Snapshot
        ensures !AtOrAfter(e.provenance.recvTimestampUs, LatestReset(window.ingestEvents, target))
      {
        assert e in multiset(window.bookEvents);
        NoLaterSnapshot(d, a, e);
      }
      ReplayFindsNothing(a, target, RecvTime, window);
    }
  }

  /** A first snapshot with at least one level, as the venue prints it, establishes that situation. */
  lemma FirstSnapshotIsLive(m: FeedMessage, bids: seq<Level>, asks: seq<Level>)
    requires m.BookMessage? && m.bids == Printed(bids) && m.asks == Printed(asks)
    requires WithinLimits(m) && PrefixesFit(bids) && PrefixesFit(asks) && |bids| + |asks| > 0
    ensures Live(HandleBook(INITIAL, m), m.asset) && |HandleBook(INITIAL, m).emitted| <= 2 * MAX_BOOK_LEVELS_PER_SIDE
  {
    hide HandleBook, ParseLevels, PrefixesFit, LastWins, LevelsOf;
    var d' := HandleBook(INITIAL, m);
    PrintedIsReadBack(bids);
    PrintedIsReadBack(asks);
    SnapshotAllOrNothing(INITIAL, m);
    FirstSnapshotMark(m);
    assert SnapshotAt(Added(INITIAL, d', m.asset)[0], m.recvUs, RecvTime);
  }

  lemma FirstSnapshotMark(m: FeedMessage)
    requires m.BookMessage? && Considered(INITIAL, m) && SnapshotBook(m).Ok?
    ensures var d' := HandleBook(INITIAL, m);
            Sent(d', m.asset) == Added(INITIAL, d', m.asset) && |d'.emitted| <= 2 * MAX_BOOK_LEVELS_PER_SIDE
  {
    hide ParseLevels, ApplySnapshot, EventsOf;
    var bids, asks := ParseLevels(m.bids).value, ParseLevels(m.asks).value;
    ParsedLength(m.bids);
    ParsedLength(m.asks);
    var accepted := AcceptSnapshot(INITIAL, m, SnapshotBook(m).value);
    LevelsCount(accepted, m, Bid, bids);
    LevelsCount(EmitLevels(accepted, m, Bid, bids), m, Ask, asks);
  }

  lemma {:induction false} LevelsCount(d: Dispatch, m: FeedMessage, side: Side, levels: seq<Level>)
    requires m.BookMessage?
    ensures var d' := EmitLevels(d, m, side, levels); |d'.emitted| == |d.emitted| + |levels| && d'.since == d.since
  {
    if |levels| > 0 {
      LevelsCount(d, m, side, levels[..|levels| - 1]);
    }
  }

  // ---------------------------------------------------------------------------------------------
  // When a hypothesis of the agreement fails
  // ---------------------------------------------------------------------------------------------

  /** The stored ingest events a replay of the asset loads: its own and those of no particular asset. */
  function IngestOf(records: seq<PersistedRecord>, a: Asset): seq<IngestEvent> {
    if |records| == 0 then []
    else
      var r := records[|records| - 1];
      IngestOf(records[..|records| - 1], a)
      + if r.IngestRecord? && (r.ingest.asset.None? || r.ingest.asset.value == a) then [r.ingest] else []
  }

  /** A snapshot message that is refused before it reaches the shadow book, with a reset announced. */
  predicate RefusedWithReset(d: Dispatch, m: FeedMessage) {
    m.BookMessage? && (!WithinLimits(m) || (!IsStale(d, m) && !IsRetransmit(d, m) && !Readable(m)))
  }

  lemma RefusalAnnouncesReset(d: Dispatch, m: FeedMessage)
    requires RefusedWithReset(d, m)
    ensures var d' := HandleBook(d, m);
            && d'.books == d.books && d'.since == d.since
            && d' == EmitIngest(d, m.asset, SourceReset, Provenance(d, m.recvUs, m.exchangeUs, m.hash, None))
  {
    hide ParseLevels, IsStale, IsRetransmit;
  }

  /** Ingest records change nothing about the events of an asset. */
  lemma EventsAfterIngest(d: Dispatch, d': Dispatch, r: PersistedRecord, a: Asset)
    requires d'.emitted == d.emitted + [r] && r.IngestRecord? && d'.since == d.since && |d'.emitted| <= U64_LIMIT
    requires a in d.since && d.since[a] <= |d.emitted|
    ensures Sent(d', a) == Sent(d, a) && EventsOf(Stamped(d'.emitted), a) == EventsOf(Stamped(d.emitted), a)
  {
    hide EventsOf;
    SentAfterRecord(d, d', a, r);
    assert Stamped(d'.emitted) == Stamped(d.emitted) + [StampRecord(r, |d.emitted|)];
    EventsAfterPush(Stamped(d.emitted), StampRecord(r, |d.emitted|), a);
  }

  lemma LastIngest(records: seq<PersistedRecord>, a: Asset)
    requires |records| > 0 && records[|records| - 1].IngestRecord? && records[|records| - 1].ingest.asset == Some(a)
    ensures records[|records| - 1].ingest in IngestOf(records, a)
  {
  }

  /** The first sent event of a live asset was received with one of its snapshot messages. */
  lemma SentFromMessage(messages: seq<FeedMessage>, a: Asset) returns (k: nat)
    requires Clocked(messages) && Live(HandleAll(INITIAL, messages), a)
    ensures k < |messages| && messages[k].BookMessage? && messages[k].asset == a
    ensures Sent(HandleAll(INITIAL, messages), a)[0].provenance.recvTimestampUs == messages[k].recvUs
  {
    hide HandleAll, EventsOf, InOrder, MarkedFor, AllWellGrouped;
    var d := HandleAll(INITIAL, messages);
    RunKeepsFaithful(messages);
    assert FaithfulFor(d, a);
    OutputShape(messages);
    var p := SnapshotPosition(d, a);
    assert HasMessage(d.emitted[p], messages);
    k :| 0 <= k < |messages| && messages[k].BookMessage? && KeyOf(d.emitted[p].event) == MessageKey(messages[k]);
  }

  /**
   A refused snapshot message leaves the shadow book as it is and announces a reset, so afterwards live and
   shadow book still agree while a replay of what is stored finds nothing to start from.
   */
  lemma RefusalBlocksReplay(messages: seq<FeedMessage>, m: FeedMessage, s: State, target: U64, window: Window)
    requires Clocked(messages + [m]) && (forall x <- messages + [m] :: x.recvUs <= target) && s.pending.None?
    requires RefusedWithReset(HandleAll(INITIAL, messages), m) && Live(HandleAll(INITIAL, messages), m.asset)
    requires |HandleAll(INITIAL, messages).emitted| < U64_LIMIT
    requires var stamped := Stamped(HandleBook(HandleAll(INITIAL, messages), m).emitted);
             && multiset(window.bookEvents) == multiset(EventsOf(stamped, m.asset))
             && multiset(window.ingestEvents) == multiset(IngestOf(stamped, m.asset))
    ensures var d := HandleAll(INITIAL, messages + [m]);
            && d.books == HandleAll(INITIAL, messages).books
            && SameLevels(LiveBook(RunRecords(s, Stamped(d.emitted)), m.asset), d.books[m.asset])
            && Reconstruct(m.asset, target, RecvTime, None, window) == Err(NoSnapshotFound)
  {
    hide Sent, EventsOf, IngestOf, Reconstruct, LiveBook, RunRecords, LatestReset, SameLevels, HandleBook, Clocked;
    var before, d, run := HandleAll(INITIAL, messages), HandleAll(INITIAL, messages + [m]), messages + [m];
    assert run[..|run| - 1] == messages;
    hide HandleAll;
    RefusalAnnouncesReset(before, m);
    RunKeepsFaithful(messages);
    assert FaithfulFor(before, m.asset);
    EventsAfterIngest(before, d, d.emitted[|before.emitted|], m.asset);
    ThreeBooksAgree(run, m.asset, s, target, window);
    ClockedPrefix(messages, m);
    var k := SentFromMessage(messages, m.asset);
    SnapshotsApart(messages, m, k);
    ResetCounts(d.emitted, m.asset, m.recvUs, target, window);
  }

  lemma ClockedPrefix(messages: seq<FeedMessage>, m: FeedMessage)
    requires Clocked(messages + [m])
    ensures Clocked(messages)
  {
    assert forall i | 0 <= i < |messages| :: messages[i] == (messages + [m])[i];
  }

  lemma SnapshotsApart(messages: seq<FeedMessage>, m: FeedMessage, k: nat)
    requires Clocked(messages + [m]) && k < |messages| && SnapshotsOfOneAsset(messages[k], m)
    ensures messages[k].recvUs < m.recvUs
  {
    assert (messages + [m])[k] == messages[k] && (messages + [m])[|messages|] == m;
  }

  /** A stored reset of the asset moves the boundary. */
  lemma ResetCounts(records: seq<PersistedRecord>, a: Asset, recvUs: U64, target: U64, window: Window)
    requires 0 < |records| <= U64_LIMIT && recvUs <= target && records[|records| - 1].IngestRecord?
    requires var i := records[|records| - 1].ingest;
             i.asset == Some(a) && i.kind == SourceReset && i.provenance.recvTimestampUs == recvUs
    requires multiset(window.ingestEvents) == multiset(IngestOf(Stamped(records), a))
    ensures var reset := LatestReset(window.ingestEvents, target); reset.Some? && recvUs <= reset.value
  {
    hide IngestOf, LatestReset;
    var n := |records| - 1;
    var i := Stamped(records)[n].ingest;
    assert Stamped(records)[n] == StampRecord(records[n], n);
    LastIngest(Stamped(records), a);
    assert i in multiset(window.ingestEvents) && IsReset(i, target);
    LatestResetIsMax(window.ingestEvents, target);
  }

  /** A book without levels. */
  predicate Bare(b: Book) {
    b.bids == map[] && b.asks == map[]
  }

  predicate AcceptedEmpty(d: Dispatch, m: FeedMessage) {
    m.BookMessage? && |m.bids| == 0 && |m.asks| == 0 && !IsStale(d, m) && !IsRetransmit(d, m)
  }

  /**
   An accepted snapshot without levels empties the shadow book but sends nothing. So afterwards the live
   book agrees with it if and only if it had no levels already.
   */
  lemma EmptySnapshotUnseen(d: Dispatch, m: FeedMessage, s: State)
    requires AcceptedEmpty(d, m) && |d.emitted| <= U64_LIMIT
    ensures var d' := HandleBook(d, m);
            var live := LiveBook(RunRecords(s, Stamped(d.emitted)), m.asset);
            && d'.emitted == d.emitted && m.asset in d'.books && Bare(d'.books[m.asset])
            && LiveBook(RunRecords(s, Stamped(d'.emitted)), m.asset) == live
            && (SameLevels(live, d'.books[m.asset]) <==> Bare(live))
  {
    hide LiveBook, RunRecords, Stamped;
    SumOfEmpty(GRID);
    assert ApplySnapshot([], [], 0, m.exchangeUs) == Ok(Book(map[], map[], 0, true, m.exchangeUs));
  }

  /**
   After a run on which the three books agreed, such a snapshot makes both the live book and the replayed
   book differ from the shadow book, unless the book had no levels before it.
   */
  lemma EmptySnapshotAfterRun(messages: seq<FeedMessage>, m: FeedMessage, s: State, target: U64, window: Window)
    requires Clocked(messages) && (forall x <- messages :: x.recvUs <= target) && s.pending.None?
    requires AcceptedEmpty(HandleAll(INITIAL, messages), m) && Live(HandleAll(INITIAL, messages), m.asset)
    requires var d := HandleAll(INITIAL, messages);
             && multiset(window.bookEvents) == multiset(EventsOf(Stamped(d.emitted), m.asset))
             && AtOrAfter(Sent(d, m.asset)[0].provenance.recvTimestampUs, LatestReset(window.ingestEvents, target))
    ensures var before, after := HandleAll(INITIAL, messages), HandleAll(INITIAL, messages + [m]);
            && after.emitted == before.emitted && m.asset in after.books
            && var live := LiveBook(RunRecords(s, Stamped(after.emitted)), m.asset);
               var r := Reconstruct(m.asset, target, RecvTime, None, window);
               && r.Ok?
               && (SameLevels(live, after.books[m.asset]) <==> Bare(before.books[m.asset]))
               && (SameLevels(r.value.book, after.books[m.asset]) <==> Bare(before.books[m.asset]))
  {
    hide LiveBook, RunRecords, Stamped, Reconstruct, EventsOf, Sent, LatestReset, HandleBook, Clocked, IsStale,
      IsRetransmit, CrossedNotices;
    var run := messages + [m];
    assert run[..|run| - 1] == messages;
    var before := HandleAll(INITIAL, messages);
    ThreeBooksAgree(messages, m.asset, s, target, window);
    EmptySnapshotUnseen(before, m, s);
  }
}
