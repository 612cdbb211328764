/**
 What the dispatcher's output means: the events sent for an asset since its last accepted snapshot rebuild
 exactly its shadow book, and their numbering has no gap.
 */
module DispatcherTheorems {
  import opened Types
  import opened OrderBook
  import opened FixedPoint
  import opened EventOrder
  import opened Replay
  import opened ReplayTheorems
  import opened LiveState
  import opened LiveReplay
  import opened Dispatcher

  // ---------------------------------------------------------------------------------------------
  // Numbered events replay without gaps
  // ---------------------------------------------------------------------------------------------

  /** The wrapping 64-bit counter after `k` more events. */
  function Advance(n: nat, k: nat): U64 {
    (n + k) % U64_LIMIT
  }

  /** Consecutive wrapping sequence numbers from `n` on. */
  ghost predicate NumberedFrom(events: seq<BookEvent>, n: nat) {
    forall i | 0 <= i < |events| :: events[i].provenance.sequence == Some(Advance(n, i))
  }

  /** The book is at the number before `n`, or has seen none. */
  predicate At(b: Book, n: nat) {
    b.seqInitialized ==> (b.sequence + 1) % U64_LIMIT == n % U64_LIMIT
  }

  lemma QuietDelta(asset: Asset, events: seq<BookEvent>, i: nat, n: nat, target: U64, mode: ReplayMode, b: Book)
    requires i < |events| && events[i].kind == Delta && EventTs(events[i], mode) <= target
    requires NumberedFrom(events, n) && At(b, n + i)
    requires ApplyDeltaEvent(b, events[i], EventTs(events[i], mode)).Ok?
    ensures var next := ApplyDeltaEvent(b, events[i], EventTs(events[i], mode)).value;
            && ReplayFrom(asset, events, i, target, mode, b) == ReplayFrom(asset, events, i + 1, target, mode, next)
            && At(next, n + i + 1)
  {
    hide EventTs, Fits;
    var e := events[i];
    var next := ApplyDeltaEvent(b, e, EventTs(e, mode)).value;
    assert GapNotices(asset, b, e) == [];
    NextNumber(SequenceOf(e.provenance), n + i);
    var rest := ReplayFrom(asset, events, i + 1, target, mode, next);
    assert rest.Done? ==> [] + rest.notices == rest.notices;
  }

  lemma NextNumber(seqNo: U64, n: nat)
    requires seqNo == n % U64_LIMIT
    ensures (seqNo + 1) % U64_LIMIT == (n + 1) % U64_LIMIT
  {
  }

  lemma RunLeavesNumber(events: seq<BookEvent>, g: nat, j: nat, n: nat, ts: U64)
    requires g < j <= |events| && NumberedFrom(events, n) && ApplySnapshotEvents(events[g..j], ts).Ok?
    ensures At(ApplySnapshotEvents(events[g..j], ts).value, n + j)
  {
    hide LevelsOf, PrefixesFit, LastWins;
    assert events[g..j][j - g - 1] == events[j - 1];
    assert LastSequence(events[g..j]) == (n + j - 1) % U64_LIMIT;
    NextNumber(LastSequence(events[g..j]), n + j - 1);
  }

  lemma QuietRun(asset: Asset, events: seq<BookEvent>, g: nat, j: nat, n: nat, target: U64, mode: ReplayMode, b: Book)
    requires g < j <= |events| && NumberedFrom(events, n) && Boundary(events, j, mode)
    requires forall i | g <= i < j :: SnapshotAt(events[i], EventTs(events[g], mode), mode)
    requires EventTs(events[g], mode) <= target && ApplySnapshotEvents(events[g..j], EventTs(events[g], mode)).Ok?
    ensures var next := ApplySnapshotEvents(events[g..j], EventTs(events[g], mode)).value;
            && ReplayFrom(asset, events, g, target, mode, b) == ReplayFrom(asset, events, j, target, mode, next)
            && At(next, n + j)
  {
    hide ReplayFrom, ApplySnapshotEvents, At, NumberedFrom, EventTs;
    LoopOverRun(asset, events, g, j, target, mode, b);
    RunLeavesNumber(events, g, j, n, EventTs(events[g], mode));
  }

  /** The loop has come to position `j` without a notice, at the fold of what is before it. */
  ghost predicate Reached(asset: Asset, events: seq<BookEvent>, j: nat, n: nat, target: U64, mode: ReplayMode, b: Book)
    requires j <= |events|
  {
    var reached := Fold(b, events[..j], mode);
    && reached.Some?
    && ReplayFrom(asset, events, 0, target, mode, b) == ReplayFrom(asset, events, j, target, mode, reached.value)
    && At(reached.value, n + j)
  }

  lemma ReachedAfterDelta(asset: Asset, events: seq<BookEvent>, j: nat, n: nat, target: U64, mode: ReplayMode, b: Book)
    requires 0 < j <= |events| && events[j - 1].kind == Delta && EventTs(events[j - 1], mode) <= target
    requires NumberedFrom(events, n) && Fold(b, events[..j], mode).Some?
    requires Fold(b, events[..j - 1], mode).Some? ==> Reached(asset, events, j - 1, n, target, mode, b)
    ensures Reached(asset, events, j, n, target, mode, b)
  {
    hide Fold, ReplayFrom, ApplyDeltaEvent, At, NumberedFrom, EventTs;
    FoldEndingInDelta(b, events, j, mode);
    QuietDelta(asset, events, j - 1, n, target, mode, Fold(b, events[..j - 1], mode).value);
  }

  lemma ReachedAfterRun(asset: Asset, events: seq<BookEvent>, j: nat, n: nat, target: U64, mode: ReplayMode, b: Book)
    requires 0 < j <= |events| && events[j - 1].kind == Snapshot && EventTs(events[j - 1], mode) <= target
    requires NumberedFrom(events, n) && Boundary(events, j, mode) && Fold(b, events[..j], mode).Some?
    requires var g := RunStart(events, j - 1, mode);
             Fold(b, events[..g], mode).Some? ==> Reached(asset, events, g, n, target, mode, b)
    ensures Reached(asset, events, j, n, target, mode, b)
  {
    hide Fold, ReplayFrom, ApplySnapshotEvents, At, NumberedFrom, EventTs, Boundary, RunStart;
    var g := RunStart(events, j - 1, mode);
    FoldEndingInRun(b, events, j, mode);
    assert SnapshotAt(events[g], EventTs(events[j - 1], mode), mode);
    QuietRun(asset, events, g, j, n, target, mode, Fold(b, events[..g], mode).value);
  }

  /** The loop over numbered events reaches each run boundary without a notice. */
  lemma {:induction false} QuietlyReaches(asset: Asset, events: seq<BookEvent>, j: nat, n: nat, target: U64,
                                          mode: ReplayMode, b: Book)
    requires Boundary(events, j, mode) && Fold(b, events[..j], mode).Some?
    requires forall i | 0 <= i < j :: EventTs(events[i], mode) <= target
    requires NumberedFrom(events, n) && At(b, n)
    ensures Reached(asset, events, j, n, target, mode, b)
    decreases j
  {
    if j == 0 {
      assert Fold(b, events[..0], mode) == Some(b);
    } else {
      hide Fold, ReplayFrom, At, NumberedFrom, EventTs, Reached;
      if events[j - 1].kind == Delta {
        if Fold(b, events[..j - 1], mode).Some? {
          QuietlyReaches(asset, events, j - 1, n, target, mode, b);
        }
        ReachedAfterDelta(asset, events, j, n, target, mode, b);
      } else {
        var g := RunStart(events, j - 1, mode);
        if Fold(b, events[..g], mode).Some? {
          QuietlyReaches(asset, events, g, n, target, mode, b);
        }
        ReachedAfterRun(asset, events, j, n, target, mode, b);
      }
    }
  }

  /** Replaying consecutively numbered events reports no gap and ends at their fold. */
  lemma NumberedReplaysQuietly(asset: Asset, events: seq<BookEvent>, n: nat, target: U64, mode: ReplayMode, b: Book)
    requires NumberedFrom(events, n) && At(b, n) && Fold(b, events, mode).Some?
    requires forall i | 0 <= i < |events| :: EventTs(events[i], mode) <= target
    ensures ReplayFrom(asset, events, 0, target, mode, b) == Done(Fold(b, events, mode).value, [])
  {
    hide Fold, At, NumberedFrom;
    assert events[..|events|] == events;
    QuietlyReaches(asset, events, |events|, n, target, mode, b);
  }

  // ---------------------------------------------------------------------------------------------
  // The invariant
  // ---------------------------------------------------------------------------------------------

  /** The events sent for an asset since its last accepted snapshot began. */
  function Sent(d: Dispatch, a: Asset): seq<BookEvent> {
    if a in d.since && d.since[a] <= |d.emitted| then EventsOf(d.emitted[d.since[a]..], a) else []
  }

  /** Folded from the empty book, the events give a book with these levels. */
  predicate Rebuilds(events: seq<BookEvent>, b: Book) {
    var folded := Fold(EMPTY_BOOK, events, RecvTime);
    folded.Some? && SameLevels(folded.value, b)
  }

  ghost predicate FaithfulFor(d: Dispatch, a: Asset)
    requires a in d.books
  {
    && a in d.since && d.since[a] <= |d.emitted|
    && NumberedFrom(Sent(d, a), 0)
    && NextSequence(d, a) == |Sent(d, a)| % U64_LIMIT
    && Rebuilds(Sent(d, a), d.books[a])
  }

  /** The shadow book of every asset is what its sent events rebuild. */
  ghost predicate Faithful(d: Dispatch) {
    forall a <- d.books :: FaithfulFor(d, a)
  }

  /** One more record, seen from one asset. */
  lemma SentAfterRecord(d: Dispatch, d': Dispatch, a: Asset, r: PersistedRecord)
    requires a in d.since && d.since[a] <= |d.emitted|
    requires a in d'.since && d'.since[a] == d.since[a] && d'.emitted == d.emitted + [r]
    ensures Sent(d', a) == Sent(d, a) + if r.BookRecord? && r.event.asset == a then [r.event] else []
  {
    var k := d.since[a];
    assert d'.emitted[k..] == d.emitted[k..] + [r];
    assert (d.emitted[k..] + [r])[..|d.emitted| - k] == d.emitted[k..];
  }

  /** A record that is not one of the asset's book events leaves the asset faithful. */
  lemma OtherRecordKeeps(d: Dispatch, d': Dispatch, a: Asset, r: PersistedRecord)
    requires a in d.books && FaithfulFor(d, a) && !(r.BookRecord? && r.event.asset == a)
    requires a in d'.books && d'.books[a] == d.books[a] && a in d'.since && d'.since[a] == d.since[a]
    requires NextSequence(d', a) == NextSequence(d, a) && d'.emitted == d.emitted + [r]
    ensures FaithfulFor(d', a)
  {
    hide Rebuilds, NumberedFrom, Sent;
    SentAfterRecord(d, d', a, r);
    assert Sent(d, a) + [] == Sent(d, a);
  }

  lemma IngestKeeps(d: Dispatch, a: Asset, kind: IngestEventKind, p: EventProvenance)
    requires Faithful(d)
    ensures Faithful(EmitIngest(d, a, kind, p))
  {
    hide Rebuilds, NumberedFrom, Sent;
    var d' := EmitIngest(d, a, kind, p);
    forall b | b in d'.books ensures FaithfulFor(d', b) {
      assert FaithfulFor(d, b);
      OtherRecordKeeps(d, d', b, d'.emitted[|d.emitted|]);
    }
  }

  lemma ForgettingKeeps(d: Dispatch, a: Asset)
    requires forall b <- d.books | b != a :: FaithfulFor(d, b)
    ensures Faithful(d.(books := d.books - {a}))
  {
    hide Rebuilds, NumberedFrom, EventsOf;
    var d' := d.(books := d.books - {a});
    forall b | b in d'.books ensures FaithfulFor(d', b) {
      assert FaithfulFor(d, b) && Sent(d', b) == Sent(d, b);
    }
  }

  // ---------------------------------------------------------------------------------------------
  // Deltas
  // ---------------------------------------------------------------------------------------------

  /** A delta does the same to books with the same levels. */
  lemma DeltaSameLevels(x: Book, y: Book, side: Side, l: Level, s1: U64, t1: U64, s2: U64, t2: U64)
    requires SameLevels(x, y)
    ensures var r, q := ApplyDelta(x, side, l.price, l.size, s1, t1), ApplyDelta(y, side, l.price, l.size, s2, t2);
            r.Ok? == q.Ok? && (r.Ok? ==> SameLevels(r.value, q.value))
  {
  }

  lemma RebuildsAfterDelta(events: seq<BookEvent>, b: Book, e: BookEvent, n: U64, ts: U64)
    requires e.kind == Delta && Rebuilds(events, b)
    ensures var r := ApplyDelta(b, e.side, e.price, e.size, n, ts); r.Ok? ==> Rebuilds(events + [e], r.value)
  {
    hide Fold, ApplyDelta;
    FoldOfLastDelta(EMPTY_BOOK, events, e, RecvTime);
    var folded := Fold(EMPTY_BOOK, events, RecvTime).value;
    DeltaSameLevels(folded, b, e.side, Level(e.price, e.size), SequenceOf(e.provenance), EventTs(e, RecvTime), n, ts);
  }

  /** Sending a delta and applying it to the shadow book. */
  lemma DeltaKeepsFaithful(d: Dispatch, m: FeedMessage, c: WireChange, side: Side, level: Level)
    requires Faithful(d) && c.asset in d.books && m.PriceChangeMessage?
    requires ApplyDelta(d.books[c.asset], side, level.price, level.size, NextSequence(d, c.asset), m.exchangeUs).Ok?
    ensures var r := ApplyDelta(d.books[c.asset], side, level.price, level.size, NextSequence(d, c.asset),
                                m.exchangeUs);
            Faithful(EmitBookEvent(d, c.asset, Delta, side, level, m.recvUs, m.exchangeUs, c.hash)
                     .(books := d.books[c.asset := r.value]))
  {
    hide ApplyDelta, Rebuilds, Sent;
    var a, n := c.asset, NextSequence(d, c.asset);
    var r := ApplyDelta(d.books[a], side, level.price, level.size, n, m.exchangeUs).value;
    var d' := EmitBookEvent(d, a, Delta, side, level, m.recvUs, m.exchangeUs, c.hash).(books := d.books[a := r]);
    var e := d'.emitted[|d.emitted|].event;
    forall b | b in d'.books ensures FaithfulFor(d', b) {
      if b != a {
        assert FaithfulFor(d, b);
        OtherRecordKeeps(d, d', b, BookRecord(e));
      } else {
        assert FaithfulFor(d, a);
        SentAfterRecord(d, d', a, BookRecord(e));
        NextNumber(n, |Sent(d, a)|);
        RebuildsAfterDelta(Sent(d, a), d.books[a], e, n, m.exchangeUs);
      }
    }
  }

  /** Sending a delta, seen from the other assets. */
  lemma DeltaLeavesOthers(d: Dispatch, m: FeedMessage, c: WireChange, side: Side, level: Level)
    requires Faithful(d) && m.PriceChangeMessage?
    ensures var d' := EmitBookEvent(d, c.asset, Delta, side, level, m.recvUs, m.exchangeUs, c.hash);
            forall b <- d'.books | b != c.asset :: FaithfulFor(d', b)
  {
    hide Rebuilds, NumberedFrom, Sent;
    var d' := EmitBookEvent(d, c.asset, Delta, side, level, m.recvUs, m.exchangeUs, c.hash);
    forall b | b in d'.books && b != c.asset ensures FaithfulFor(d', b) {
      assert FaithfulFor(d, b);
      OtherRecordKeeps(d, d', b, d'.emitted[|d.emitted|]);
    }
  }

  lemma ChangeKeepsFaithful(d: Dispatch, m: FeedMessage, i: nat)
    requires Faithful(d) && m.PriceChangeMessage? && i < |m.changes|
    ensures Faithful(HandleChange(d, m, i))
  {
    hide Faithful, FaithfulFor, ApplyDelta, LastForAsset, Mismatch, EmitBookEvent, ParseSide, ParseLevel;
    var c := m.changes[i];
    var side, level := ParseSide(c.side), ParseLevel(WireLevel(c.price, c.size));
    if side.Some? && level.Some? {
      var n := NextSequence(d, c.asset);
      var p := Provenance(d, m.recvUs, m.exchangeUs, c.hash, Some(n));
      var sent := EmitBookEvent(d, c.asset, Delta, side.value, level.value, m.recvUs, m.exchangeUs, c.hash);
      DeltaLeavesOthers(d, m, c, side.value, level.value);
      BooksAfterSend(d, m, c, side.value, level.value);
      if c.asset !in d.books {
        AllFaithful(sent, c.asset);
      } else {
        var r := ApplyDelta(d.books[c.asset], side.value, level.value.price, level.value.size, n, m.exchangeUs);
        if r.Err? {
          ForgettingKeeps(sent, c.asset);
          IngestKeeps(sent.(books := d.books - {c.asset}), c.asset, SourceReset, p);
        } else {
          DeltaKeepsFaithful(d, m, c, side.value, level.value);
          IngestKeeps(sent.(books := d.books[c.asset := r.value]), c.asset, BookMismatch, p);
        }
      }
    }
  }

  lemma BooksAfterSend(d: Dispatch, m: FeedMessage, c: WireChange, side: Side, level: Level)
    requires m.PriceChangeMessage?
    ensures EmitBookEvent(d, c.asset, Delta, side, level, m.recvUs, m.exchangeUs, c.hash).books == d.books
  {
  }

  lemma AllFaithful(d: Dispatch, absent: Asset)
    requires absent !in d.books && forall b <- d.books | b != absent :: FaithfulFor(d, b)
    ensures Faithful(d)
  {
    hide FaithfulFor;
  }

  lemma {:induction false} ChangesKeepFaithful(d: Dispatch, m: FeedMessage, i: nat)
    requires Faithful(d) && m.PriceChangeMessage? && i <= |m.changes|
    ensures Faithful(HandleChanges(d, m, i))
  {
    hide Faithful, HandleChange;
    if i > 0 {
      ChangesKeepFaithful(d, m, i - 1);
      ChangeKeepsFaithful(HandleChanges(d, m, i - 1), m, i - 1);
    }
  }

  // ---------------------------------------------------------------------------------------------
  // Snapshots
  // ---------------------------------------------------------------------------------------------

  /** The events that announce one side of a snapshot, numbered from `n`. */
  function SnapshotEvents(session: Option<string>, m: FeedMessage, side: Side, levels: seq<Level>,
                          n: nat): seq<BookEvent>
    requires m.BookMessage?
  {
    if |levels| == 0 then []
    else
      var k := |levels| - 1;
      SnapshotEvents(session, m, side, levels[..k], n) + [SnapshotEvent(session, m, side, levels[k], Advance(n, k))]
  }

  function SnapshotEvent(session: Option<string>, m: FeedMessage, side: Side, level: Level, seqNo: U64): BookEvent
    requires m.BookMessage?
  {
    BookEvent(m.asset, Snapshot, side, level.price, level.size,
              EventProvenance(m.recvUs, m.exchangeUs, WebSocket, m.hash, session, Some(seqNo), None))
  }

  lemma {:induction false} SnapshotEventsAre(session: Option<string>, m: FeedMessage, side: Side,
                                             levels: seq<Level>, n: nat)
    requires m.BookMessage?
    ensures var events := SnapshotEvents(session, m, side, levels, n);
            && |events| == |levels| && NumberedFrom(events, n)
            && forall i | 0 <= i < |events| :: SnapshotAt(events[i], m.recvUs, RecvTime) && events[i].side == side
  {
    hide Advance;
    if |levels| > 0 {
      SnapshotEventsAre(session, m, side, levels[..|levels| - 1], n);
    }
  }

  lemma {:induction false} LevelsOfSnapshotEvents(session: Option<string>, m: FeedMessage, side: Side,
                                                  levels: seq<Level>, n: nat, other: Side)
    requires m.BookMessage?
    ensures LevelsOf(SnapshotEvents(session, m, side, levels, n), other) == if side == other then levels else []
  {
    if |levels| == 0 {
    } else {
      hide LevelsOf, Advance;
      var k := |levels| - 1;
      LevelsOfSnapshotEvents(session, m, side, levels[..k], n, other);
      LevelsAfterPush(SnapshotEvents(session, m, side, levels[..k], n),
                      SnapshotEvent(session, m, side, levels[k], Advance(n, k)), other);
      AllButLast(levels);
    }
  }

  lemma AllButLast<T>(s: seq<T>)
    requires |s| > 0
    ensures s[..|s| - 1] + [s[|s| - 1]] == s
  {
  }

  /** Sending one side of a snapshot: its events are appended, the counter moves on, nothing else changes. */
  lemma {:induction false} EmitLevelsIs(d: Dispatch, m: FeedMessage, side: Side, levels: seq<Level>, from: nat,
                                        a: Asset)
    requires m.BookMessage? && from <= |d.emitted|
    ensures LevelsSent(d, EmitLevels(d, m, side, levels), m, side, levels, from, a)
  {
    if |levels| == 0 {
      assert EventsOf(d.emitted[from..], a) + [] == EventsOf(d.emitted[from..], a);
    } else {
      hide LevelsSent, EmitBookEvent;
      var k := |levels| - 1;
      EmitLevelsIs(d, m, side, levels[..k], from, a);
      OneMoreLevel(d, EmitLevels(d, m, side, levels[..k]), m, side, levels, from, a);
    }
  }

  ghost predicate LevelsSent(d: Dispatch, d': Dispatch, m: FeedMessage, side: Side, levels: seq<Level>, from: nat,
                             a: Asset)
    requires m.BookMessage? && from <= |d.emitted|
  {
    && d'.books == d.books && d'.since == d.since && d'.session == d.session
    && |d.emitted| <= |d'.emitted|
    && EventsOf(d'.emitted[from..], a) == EventsOf(d.emitted[from..], a)
       + (if a == m.asset then SnapshotEvents(d.session, m, side, levels, NextSequence(d, a)) else [])
    && NextSequence(d', a) == if a == m.asset then Advance(NextSequence(d, a), |levels|) else NextSequence(d, a)
  }

  lemma OneMoreLevel(d: Dispatch, before: Dispatch, m: FeedMessage, side: Side, levels: seq<Level>, from: nat, a: Asset)
    requires m.BookMessage? && from <= |d.emitted| && |levels| > 0
    requires LevelsSent(d, before, m, side, levels[..|levels| - 1], from, a)
    ensures LevelsSent(d, EmitBookEvent(before, m.asset, Snapshot, side, levels[|levels| - 1],
                                        m.recvUs, m.exchangeUs, m.hash),
                       m, side, levels, from, a)
  {
    hide EventsOf, NumberedFrom;
    var k := |levels| - 1;
    EmitOneMore(before, m, side, levels[k], from, a);
    if a == m.asset {
      NumberAfter(NextSequence(d, a), k);
    }
  }

  lemma EmitOneMore(d: Dispatch, m: FeedMessage, side: Side, level: Level, from: nat, a: Asset)
    requires m.BookMessage? && from <= |d.emitted|
    ensures var d' := EmitBookEvent(d, m.asset, Snapshot, side, level, m.recvUs, m.exchangeUs, m.hash);
            && d.emitted <= d'.emitted
            && EventsOf(d'.emitted[from..], a)
               == EventsOf(d.emitted[from..], a) + if a == m.asset then [d'.emitted[|d.emitted|].event] else []
  {
    var d' := EmitBookEvent(d, m.asset, Snapshot, side, level, m.recvUs, m.exchangeUs, m.hash);
    var r := d'.emitted[|d.emitted|];
    assert d'.emitted[from..] == d.emitted[from..] + [r];
    assert (d.emitted[from..] + [r])[..|d.emitted| - from] == d.emitted[from..];
  }

  lemma NumberAfter(n: U64, k: nat)
    ensures ((n + k) % U64_LIMIT + 1) % U64_LIMIT == (n + k + 1) % U64_LIMIT
  {
  }

  /** What an accepted snapshot's events rebuild. */
  lemma SnapshotRebuilds(session: Option<string>, m: FeedMessage, bids: seq<Level>, asks: seq<Level>)
    requires m.BookMessage? && ApplySnapshot(bids, asks, 0, m.exchangeUs).Ok?
    ensures var events := SnapshotEvents(session, m, Bid, bids, 0) + SnapshotEvents(session, m, Ask, asks, |bids|);
            && NumberedFrom(events, 0) && |events| == |bids| + |asks|
            && Rebuilds(events, ApplySnapshot(bids, asks, 0, m.exchangeUs).value)
  {
    hide SnapshotEvents, Rebuilds, ApplySnapshot, LevelsOf, EventTs;
    var b, k := SnapshotEvents(session, m, Bid, bids, 0), SnapshotEvents(session, m, Ask, asks, |bids|);
    SnapshotEventsAre(session, m, Bid, bids, 0);
    SnapshotEventsAre(session, m, Ask, asks, |bids|);
    forall side ensures LevelsOf(b + k, side) == if side == Bid then bids else asks {
      LevelsOfConcat(b, k, side);
      LevelsOfSnapshotEvents(session, m, Bid, bids, 0, side);
      LevelsOfSnapshotEvents(session, m, Ask, asks, |bids|, side);
    }
    RunRebuilds(b + k, bids, asks, m.recvUs, m.exchangeUs);
  }

  lemma RunRebuilds(events: seq<BookEvent>, bids: seq<Level>, asks: seq<Level>, recvUs: U64, exchangeUs: U64)
    requires forall i | 0 <= i < |events| :: SnapshotAt(events[i], recvUs, RecvTime)
    requires LevelsOf(events, Bid) == bids && LevelsOf(events, Ask) == asks
             && ApplySnapshot(bids, asks, 0, exchangeUs).Ok?
    ensures Rebuilds(events, ApplySnapshot(bids, asks, 0, exchangeUs).value)
  {
    if |events| == 0 {
      FoldOfNothing(events);
    } else {
      hide Fold, ApplySnapshot, LevelsOf, SameRun, SnapshotAt;
      FoldOfNothing([]);
      FoldOfLastRun(EMPTY_BOOK, [], events, recvUs, RecvTime);
      assert [] + events == events;
      SnapshotSameLevels(bids, asks, LastSequence(events), recvUs, 0, exchangeUs);
    }
  }

  lemma SnapshotSameLevels(bids: seq<Level>, asks: seq<Level>, s1: U64, t1: U64, s2: U64, t2: U64)
    ensures var r, q := ApplySnapshot(bids, asks, s1, t1), ApplySnapshot(bids, asks, s2, t2);
            r.Ok? == q.Ok? && (r.Ok? ==> SameLevels(r.value, q.value))
  {
    hide PrefixesFit;
  }

  lemma FoldOfNothing(events: seq<BookEvent>)
    requires |events| == 0
    ensures Fold(EMPTY_BOOK, events, RecvTime) == Some(EMPTY_BOOK)
  {
  }

  lemma AcceptedSnapshotKeeps(d: Dispatch, m: FeedMessage, bids: seq<Level>, asks: seq<Level>)
    requires Faithful(d) && m.BookMessage? && |bids| < U64_LIMIT && ApplySnapshot(bids, asks, 0, m.exchangeUs).Ok?
    ensures var b := ApplySnapshot(bids, asks, 0, m.exchangeUs).value;
            Faithful(EmitLevels(EmitLevels(AcceptSnapshot(d, m, b), m, Bid, bids), m, Ask, asks))
  {
    hide ApplySnapshot, SnapshotEvents, Rebuilds, EmitLevels, EventsOf, NumberedFrom;
    var book := ApplySnapshot(bids, asks, 0, m.exchangeUs).value;
    var accepted := AcceptSnapshot(d, m, book);
    var half := EmitLevels(accepted, m, Bid, bids);
    var d' := EmitLevels(half, m, Ask, asks);
    forall a | a in d'.books ensures FaithfulFor(d', a) {
      EmitLevelsIs(accepted, m, Bid, bids, 0, a);
      EmitLevelsIs(half, m, Ask, asks, 0, a);
      var from := accepted.since[a];
      if a == m.asset {
        EmitLevelsIs(accepted, m, Bid, bids, from, a);
        EmitLevelsIs(half, m, Ask, asks, from, a);
        FreshCount(accepted, half, d', m, bids, asks);
        SnapshotRebuilds(d.session, m, bids, asks);
      } else {
        assert FaithfulFor(d, a);
        EmitLevelsIs(accepted, m, Bid, bids, from, a);
        EmitLevelsIs(half, m, Ask, asks, from, a);
        assert Sent(d, a) + [] + [] == Sent(d, a);
      }
    }
  }

  lemma NoEvents(records: seq<PersistedRecord>, a: Asset)
    requires |records| == 0
    ensures EventsOf(records, a) == []
  {
  }

  /** The sent events of the asset itself, right after its snapshot. */
  lemma FreshCount(accepted: Dispatch, half: Dispatch, d': Dispatch, m: FeedMessage, bids: seq<Level>, asks: seq<Level>)
    requires m.BookMessage? && m.asset in accepted.since && accepted.since[m.asset] == |accepted.emitted|
    requires NextSequence(accepted, m.asset) == 0 && |bids| < U64_LIMIT
    requires LevelsSent(accepted, half, m, Bid, bids, |accepted.emitted|, m.asset)
    requires |accepted.emitted| <= |half.emitted| && LevelsSent(half, d', m, Ask, asks, |accepted.emitted|, m.asset)
    ensures Sent(d', m.asset) == SnapshotEvents(accepted.session, m, Bid, bids, 0)
            + SnapshotEvents(accepted.session, m, Ask, asks, |bids|)
    ensures NextSequence(d', m.asset) == Advance(|bids|, |asks|)
  {
    hide SnapshotEvents, EventsOf, NextSequence, Advance;
    NoEvents(accepted.emitted[|accepted.emitted|..], m.asset);
    Associate(EventsOf(accepted.emitted[|accepted.emitted|..], m.asset),
              SnapshotEvents(accepted.session, m, Bid, bids, 0),
              SnapshotEvents(accepted.session, m, Ask, asks, |bids|));
    assert NextSequence(half, m.asset) == |bids| by {
      AdvanceFromZero(|bids|);
    }
  }

  lemma AdvanceFromZero(k: nat)
    requires k < U64_LIMIT
    ensures Advance(0, k) == k
  {
  }

  lemma Associate<T>(none: seq<T>, x: seq<T>, y: seq<T>)
    requires |none| == 0
    ensures none + x + y == x + y
  {
  }

  lemma {:induction false} ParsedLength(entries: seq<WireLevel>)
    ensures ParseLevels(entries).Some? ==> |ParseLevels(entries).value| == |entries|
  {
    if |entries| > 0 {
      ParsedLength(entries[..|entries| - 1]);
    }
  }

  lemma BookKeepsFaithful(d: Dispatch, m: FeedMessage)
    requires Faithful(d) && m.BookMessage?
    ensures Faithful(HandleBook(d, m))
  {
    hide Faithful, FaithfulFor, ParseLevels, ApplySnapshot, EmitLevels, AcceptSnapshot, EmitIngest;
    var p := Provenance(d, m.recvUs, m.exchangeUs, m.hash, None);
    IngestKeeps(d, m.asset, SourceReset, p);
    IngestKeeps(d, m.asset, StaleSnapshotSkip, p);
    ForgettingKept(d, m.asset);
    IngestKeeps(d.(books := d.books - {m.asset}), m.asset, SourceReset, p);
    var bids, asks := ParseLevels(m.bids), ParseLevels(m.asks);
    if bids.Some? && asks.Some? && |m.bids| <= MAX_BOOK_LEVELS_PER_SIDE
       && ApplySnapshot(bids.value, asks.value, 0, m.exchangeUs).Ok? {
      ParsedLength(m.bids);
      AcceptedSnapshotKeeps(d, m, bids.value, asks.value);
    }
  }

  lemma ForgettingKept(d: Dispatch, a: Asset)
    requires Faithful(d)
    ensures Faithful(d.(books := d.books - {a}))
  {
    hide FaithfulFor;
    ForgettingKeeps(d, a);
  }

  // ---------------------------------------------------------------------------------------------
  // Every run
  // ---------------------------------------------------------------------------------------------

  /** Every message, accepted or rejected, keeps all shadow books faithful to what was sent. */
  lemma HandleKeepsFaithful(d: Dispatch, m: FeedMessage)
    requires Faithful(d)
    ensures Faithful(Handle(d, m))
  {
    hide FaithfulFor, HandleBook, HandleChanges;
    match m {
      case BookMessage(_, _, _, _, _, _) => BookKeepsFaithful(d, m);
      case PriceChangeMessage(_, _, changes) => ChangesKeepFaithful(d, m, |changes|);
      case ReconnectStarted(_, _) => StartKeeps(d, m);
      case Reconnected(_, _) =>
    }
  }

  lemma StartKeeps(d: Dispatch, m: FeedMessage)
    requires Faithful(d) && m.ReconnectStarted?
    ensures Faithful(Handle(d, m))
  {
    hide Rebuilds, NumberedFrom, Sent;
    var d' := Handle(d, m);
    forall b | b in d'.books ensures FaithfulFor(d', b) {
      assert FaithfulFor(d, b);
      OtherRecordKeeps(d, d', b, d'.emitted[|d.emitted|]);
    }
  }

  /**
   After any run of messages, the events sent for an asset since its last accepted snapshot are numbered
   consecutively from zero and, folded from the empty book, rebuild exactly its shadow book's levels.
   */
  lemma {:induction false} RunKeepsFaithful(messages: seq<FeedMessage>)
    ensures Faithful(HandleAll(INITIAL, messages))
  {
    hide Handle, FaithfulFor;
    if |messages| > 0 {
      RunKeepsFaithful(messages[..|messages| - 1]);
      HandleKeepsFaithful(HandleAll(INITIAL, messages[..|messages| - 1]), messages[|messages| - 1]);
    }
  }

  /** Replaying what was sent since the last accepted snapshot reports no gap and gives the shadow book's levels. */
  lemma SentReplaysToShadow(messages: seq<FeedMessage>, a: Asset, target: U64)
    requires a in HandleAll(INITIAL, messages).books
    requires forall e <- Sent(HandleAll(INITIAL, messages), a) :: e.provenance.recvTimestampUs <= target
    ensures var d := HandleAll(INITIAL, messages);
            var o := ReplayFrom(a, Sent(d, a), 0, target, RecvTime, EMPTY_BOOK);
            o.Done? && o.notices == [] && SameLevels(o.book, d.books[a])
  {
    hide HandleAll, NumberedFrom, Fold, Sent, ReplayFrom, SameLevels;
    RunKeepsFaithful(messages);
    var d := HandleAll(INITIAL, messages);
    assert FaithfulFor(d, a);
    NumberedReplaysQuietly(a, Sent(d, a), 0, target, RecvTime, EMPTY_BOOK);
  }

  // ---------------------------------------------------------------------------------------------
  // Snapshots are all or nothing
  // ---------------------------------------------------------------------------------------------

  predicate WithinLimits(m: FeedMessage)
    requires m.BookMessage?
  {
    |m.bids| <= MAX_BOOK_LEVELS_PER_SIDE && |m.asks| <= MAX_BOOK_LEVELS_PER_SIDE
  }

  predicate Readable(m: FeedMessage)
    requires m.BookMessage?
  {
    ParseLevels(m.bids).Some? && ParseLevels(m.asks).Some?
  }

  function SnapshotBook(m: FeedMessage): Result<Book, BookError>
    requires m.BookMessage? && Readable(m)
  {
    ApplySnapshot(ParseLevels(m.bids).value, ParseLevels(m.asks).value, 0, m.exchangeUs)
  }

  predicate Considered(d: Dispatch, m: FeedMessage)
    requires m.BookMessage?
  {
    WithinLimits(m) && !IsStale(d, m) && !IsRetransmit(d, m) && Readable(m)
  }

  ghost predicate AllSnapshots(events: seq<BookEvent>, recvUs: U64) {
    forall i | 0 <= i < |events| :: SnapshotAt(events[i], recvUs, RecvTime)
  }

  /** The first `n` events are bids and the rest asks. */
  ghost predicate BidsFirst(events: seq<BookEvent>, n: nat) {
    forall i | 0 <= i < |events| :: events[i].side == if i < n then Bid else Ask
  }

  /** What a snapshot message added to the output. */
  function Added(d: Dispatch, d': Dispatch, a: Asset): seq<BookEvent> {
    if |d.emitted| <= |d'.emitted| then EventsOf(d'.emitted[|d.emitted|..], a) else []
  }

  /**
   An accepted snapshot sends an event for every level of the message, bids before asks, and becomes the
   shadow book; a rejected one sends no book event and moves no tracker and no counter, and the shadow
   book is dropped exactly when the message was readable and considered but overflows.
   */
  lemma SnapshotAllOrNothing(d: Dispatch, m: FeedMessage)
    requires m.BookMessage?
    ensures var d' := HandleBook(d, m);
            var added := Added(d, d', m.asset);
            if Considered(d, m) && SnapshotBook(m).Ok? then
              && LevelsOf(added, Bid) == ParseLevels(m.bids).value && LevelsOf(added, Ask) == ParseLevels(m.asks).value
              && |added| == |m.bids| + |m.asks| && AllSnapshots(added, m.recvUs) && BidsFirst(added, |m.bids|)
              && d'.books == d.books[m.asset := SnapshotBook(m).value]
            else
              && added == [] && d'.sequences == d.sequences
              && d'.lastSnapshotTs == d.lastSnapshotTs && d'.lastSnapshotHash == d.lastSnapshotHash
              && d'.books == if Considered(d, m) then d.books - {m.asset} else d.books
  {
    hide HandleBook, SnapshotBook, Added, IsStale, IsRetransmit, LevelsOf, ParseLevels;
    if Considered(d, m) && SnapshotBook(m).Ok? {
      AcceptedSnapshotSent(d, m);
    } else {
      RejectedSnapshotSent(d, m);
    }
  }

  lemma RejectedSnapshotSent(d: Dispatch, m: FeedMessage)
    requires m.BookMessage? && !(Considered(d, m) && SnapshotBook(m).Ok?)
    ensures var d' := HandleBook(d, m);
            && Added(d, d', m.asset) == [] && d'.sequences == d.sequences
            && d'.lastSnapshotTs == d.lastSnapshotTs && d'.lastSnapshotHash == d.lastSnapshotHash
            && d'.books == if Considered(d, m) then d.books - {m.asset} else d.books
  {
    hide ParseLevels, ApplySnapshot, EmitLevels, Added, IsStale, IsRetransmit, EmitIngest, AcceptSnapshot, Provenance;
    var books := if Considered(d, m) then d.books - {m.asset} else d.books;
    var p := Provenance(d, m.recvUs, m.exchangeUs, m.hash, None);
    NoticeAddsNoEvent(d, books, m.asset, SourceReset, p);
    NoticeAddsNoEvent(d, books, m.asset, StaleSnapshotSkip, p);
    NothingAdded(d, m.asset);
    if !Considered(d, m) {
      assert d.(books := books) == d;
    }
  }

  lemma NothingAdded(d: Dispatch, a: Asset)
    ensures Added(d, d, a) == []
  {
  }

  /** A notice moves no tracker and no counter and adds no book event. */
  lemma NoticeAddsNoEvent(d: Dispatch, books: map<Asset, Book>, a: Asset, kind: IngestEventKind, p: EventProvenance)
    ensures var d' := EmitIngest(d.(books := books), a, kind, p);
            && Added(d, d', a) == [] && d'.sequences == d.sequences && d'.books == books
            && d'.lastSnapshotTs == d.lastSnapshotTs && d'.lastSnapshotHash == d.lastSnapshotHash
  {
    var d' := EmitIngest(d.(books := books), a, kind, p);
    var r := d'.emitted[|d.emitted|];
    assert d'.emitted[|d.emitted|..] == [r];
    assert EventsOf([r][..0], a) == [];
  }

  lemma AcceptedSnapshotSent(d: Dispatch, m: FeedMessage)
    requires m.BookMessage? && Considered(d, m) && SnapshotBook(m).Ok?
    ensures var d' := HandleBook(d, m);
            var added := Added(d, d', m.asset);
            && LevelsOf(added, Bid) == ParseLevels(m.bids).value && LevelsOf(added, Ask) == ParseLevels(m.asks).value
            && |added| == |m.bids| + |m.asks| && AllSnapshots(added, m.recvUs) && BidsFirst(added, |m.bids|)
            && d'.books == d.books[m.asset := SnapshotBook(m).value]
  {
    hide ParseLevels, ApplySnapshot, EmitLevels, LevelsOf, SnapshotEvents, EventsOf, NumberedFrom, NextSequence,
      Advance;
    var bids, asks := ParseLevels(m.bids).value, ParseLevels(m.asks).value;
    ParsedLength(m.bids);
    ParsedLength(m.asks);
    var accepted := AcceptSnapshot(d, m, SnapshotBook(m).value);
    var half := EmitLevels(accepted, m, Bid, bids);
    var from := |d.emitted|;
    EmitLevelsIs(accepted, m, Bid, bids, from, m.asset);
    EmitLevelsIs(half, m, Ask, asks, from, m.asset);
    NoEvents(accepted.emitted[from..], m.asset);
    var b := SnapshotEvents(d.session, m, Bid, bids, NextSequence(accepted, m.asset));
    var k := SnapshotEvents(d.session, m, Ask, asks, NextSequence(half, m.asset));
    Associate(EventsOf(accepted.emitted[from..], m.asset), b, k);
    SnapshotEventsAre(d.session, m, Bid, bids, NextSequence(accepted, m.asset));
    SnapshotEventsAre(d.session, m, Ask, asks, NextSequence(half, m.asset));
    forall side ensures LevelsOf(b + k, side) == if side == Bid then bids else asks {
      LevelsOfConcat(b, k, side);
      LevelsOfSnapshotEvents(d.session, m, Bid, bids, NextSequence(accepted, m.asset), side);
      LevelsOfSnapshotEvents(d.session, m, Ask, asks, NextSequence(half, m.asset), side);
    }
  }

  /** Levels as the venue prints them. */
  function Printed(levels: seq<Level>): seq<WireLevel> {
    seq(|levels|, i requires 0 <= i < |levels| => WireLevel(ShowPrice(levels[i].price), ShowSize(levels[i].size)))
  }

  lemma {:induction false} PrintedIsReadBack(levels: seq<Level>)
    ensures ParseLevels(Printed(levels)) == Some(levels)
  {
    if |levels| > 0 {
      hide ParsePrice, ParseSize, ShowPrice, ShowSize;
      var n := |levels| - 1;
      PrintedIsReadBack(levels[..n]);
      assert Printed(levels)[..n] == Printed(levels[..n]);
      PriceRoundTrip(levels[n].price);
      SizeRoundTrip(levels[n].size);
      AllButLast(levels);
    }
  }

  /** The levels a considered snapshot prints are, if they fit, exactly the levels of the shadow book. */
  lemma PrintedSnapshotArrives(d: Dispatch, m: FeedMessage, bids: seq<Level>, asks: seq<Level>)
    requires m.BookMessage? && m.bids == Printed(bids) && m.asks == Printed(asks)
    requires WithinLimits(m) && !IsStale(d, m) && !IsRetransmit(d, m) && PrefixesFit(bids) && PrefixesFit(asks)
    ensures var d' := HandleBook(d, m);
            m.asset in d'.books && d'.books[m.asset].bids == LastWins(bids) && d'.books[m.asset].asks == LastWins(asks)
  {
    hide HandleBook, ParseLevels, PrefixesFit, LastWins, Printed, Added, IsStale, IsRetransmit, LevelsOf;
    PrintedIsReadBack(bids);
    PrintedIsReadBack(asks);
    SnapshotAllOrNothing(d, m);
  }

  lemma {:induction false} EmitLevelsKeepsTracker(d: Dispatch, m: FeedMessage, side: Side, levels: seq<Level>)
    requires m.BookMessage?
    ensures EmitLevels(d, m, side, levels).lastSnapshotTs == d.lastSnapshotTs
    ensures EmitLevels(d, m, side, levels).lastSnapshotHash == d.lastSnapshotHash
  {
    if |levels| > 0 {
      EmitLevelsKeepsTracker(d, m, side, levels[..|levels| - 1]);
    }
  }

  lemma ChangeKeepsTracker(d: Dispatch, m: FeedMessage, i: nat)
    requires m.PriceChangeMessage? && i < |m.changes|
    ensures HandleChange(d, m, i).lastSnapshotTs == d.lastSnapshotTs
    ensures HandleChange(d, m, i).lastSnapshotHash == d.lastSnapshotHash
  {
    hide ApplyDelta, Mismatch, LastForAsset, ParseSide, ParseLevel, NextSequence;
  }

  lemma {:induction false} ChangesKeepTracker(d: Dispatch, m: FeedMessage, i: nat)
    requires m.PriceChangeMessage? && i <= |m.changes|
    ensures HandleChanges(d, m, i).lastSnapshotTs == d.lastSnapshotTs
    ensures HandleChanges(d, m, i).lastSnapshotHash == d.lastSnapshotHash
  {
    hide HandleChange;
    if i > 0 {
      ChangesKeepTracker(d, m, i - 1);
      ChangeKeepsTracker(HandleChanges(d, m, i - 1), m, i - 1);
    }
  }

  /** A message the dispatcher takes for the asset's new snapshot. */
  predicate Accepted(d: Dispatch, m: FeedMessage) {
    m.BookMessage? && Considered(d, m) && SnapshotBook(m).Ok?
  }

  /**
   Only an accepted snapshot with an exchange time moves a tracked time, and only one with a hash a tracked
   hash; a reconnect forgets them all.
   */
  lemma TrackerAfter(d: Dispatch, m: FeedMessage)
    ensures Handle(d, m).lastSnapshotTs
            == if m.Reconnected? then map[]
               else if Accepted(d, m) && m.exchangeUs > 0 then d.lastSnapshotTs[m.asset := m.exchangeUs]
               else d.lastSnapshotTs
    ensures Handle(d, m).lastSnapshotHash
            == if m.Reconnected? then map[]
               else if Accepted(d, m) && m.hash.Some? then d.lastSnapshotHash[m.asset := m.hash.value]
               else d.lastSnapshotHash
  {
    hide ParseLevels, ApplySnapshot, EmitLevels, HandleChanges, IsStale, IsRetransmit;
    if Accepted(d, m) {
      var bids, asks := ParseLevels(m.bids).value, ParseLevels(m.asks).value;
      var accepted := AcceptSnapshot(d, m, SnapshotBook(m).value);
      EmitLevelsKeepsTracker(accepted, m, Bid, bids);
      EmitLevelsKeepsTracker(EmitLevels(accepted, m, Bid, bids), m, Ask, asks);
    } else if m.PriceChangeMessage? {
      ChangesKeepTracker(d, m, |m.changes|);
    }
  }

  /** Until the next reconnect the dispatcher remembers a time no earlier than an accepted snapshot's. */
  lemma {:induction false} TrackedSince(d: Dispatch, messages: seq<FeedMessage>, i: nat, n: nat)
    requires i < n <= |messages| && Accepted(HandleAll(d, messages[..i]), messages[i]) && messages[i].exchangeUs > 0
    requires forall k | i < k < n :: !messages[k].Reconnected?
    ensures var tracked := HandleAll(d, messages[..n]).lastSnapshotTs;
            messages[i].asset in tracked && messages[i].exchangeUs <= tracked[messages[i].asset]
    decreases n
  {
    hide Handle, Accepted;
    assert messages[..n][..n - 1] == messages[..n - 1];
    var before := HandleAll(d, messages[..n - 1]);
    TrackerAfter(before, messages[n - 1]);
    if i < n - 1 {
      TrackedSince(d, messages, i, n - 1);
      NotOlderThanTracked(before, messages[n - 1]);
    } else {
      TakenIsSnapshot(before, messages[i]);
    }
  }

  lemma TakenIsSnapshot(d: Dispatch, m: FeedMessage)
    requires Accepted(d, m)
    ensures m.BookMessage?
  {
  }

  lemma NotOlderThanTracked(d: Dispatch, m: FeedMessage)
    ensures Accepted(d, m) && m.exchangeUs > 0 && m.asset in d.lastSnapshotTs
            ==> d.lastSnapshotTs[m.asset] <= m.exchangeUs
  {
    hide ParseLevels, ApplySnapshot, IsRetransmit;
  }

  /**
   Of two accepted snapshots of an asset with no reconnect in between, the later one has no earlier exchange
   time, unless it has none at all: an absent or unreadable time arrives as zero.
   */
  lemma SnapshotTimesNeverGoBack(d: Dispatch, messages: seq<FeedMessage>, i: nat, j: nat)
    requires i < j < |messages| && forall k | i < k < j :: !messages[k].Reconnected?
    requires Accepted(HandleAll(d, messages[..i]), messages[i]) && Accepted(HandleAll(d, messages[..j]), messages[j])
    requires messages[i].asset == messages[j].asset
    ensures messages[i].exchangeUs <= messages[j].exchangeUs || messages[j].exchangeUs == 0
  {
    hide HandleAll, Considered, SnapshotBook;
    if messages[i].exchangeUs > 0 {
      TrackedSince(d, messages, i, j);
      NotOlderThanTracked(HandleAll(d, messages[..j]), messages[j]);
    }
  }

  /** A snapshot without an exchange time is never stale, whatever was accepted before it. */
  lemma UntimedNeverStale(d: Dispatch, m: FeedMessage)
    requires m.BookMessage? && m.exchangeUs == 0
    ensures !IsStale(d, m) && Handle(d, m).lastSnapshotTs == d.lastSnapshotTs
  {
    hide Handle, Considered, SnapshotBook;
    TrackerAfter(d, m);
  }

  // ---------------------------------------------------------------------------------------------
  // A reconnect starts afresh
  // ---------------------------------------------------------------------------------------------

  /** The one state is the other with more output in front. */
  ghost predicate Continues(x: Dispatch, y: Dispatch, earlier: seq<PersistedRecord>) {
    && x.sequences == y.sequences && x.lastSnapshotTs == y.lastSnapshotTs && x.lastSnapshotHash == y.lastSnapshotHash
    && x.books == y.books && x.session == y.session && x.emitted == earlier + y.emitted
    && x.since.Keys == y.since.Keys && (forall a <- y.since :: x.since[a] == |earlier| + y.since[a])
  }

  lemma ContinuesAfterEvent(x: Dispatch, y: Dispatch, earlier: seq<PersistedRecord>, a: Asset, kind: BookEventKind,
                            side: Side, level: Level, recvUs: U64, exchangeUs: U64, hash: Option<string>)
    requires Continues(x, y, earlier)
    ensures Continues(EmitBookEvent(x, a, kind, side, level, recvUs, exchangeUs, hash),
                      EmitBookEvent(y, a, kind, side, level, recvUs, exchangeUs, hash), earlier)
  {
    SameShadow(x, y, earlier, a);
    hide NextSequence;
  }

  lemma ContinuesAfterIngest(x: Dispatch, y: Dispatch, earlier: seq<PersistedRecord>, i: IngestEvent)
    requires Continues(x, y, earlier)
    ensures Continues(Emit(x, IngestRecord(i)), Emit(y, IngestRecord(i)), earlier)
  {
  }

  lemma {:induction false} ContinuesAfterLevels(x: Dispatch, y: Dispatch, earlier: seq<PersistedRecord>, m: FeedMessage,
                                                side: Side, levels: seq<Level>)
    requires Continues(x, y, earlier) && m.BookMessage?
    ensures Continues(EmitLevels(x, m, side, levels), EmitLevels(y, m, side, levels), earlier)
  {
    hide Continues, EmitBookEvent;
    if |levels| > 0 {
      var n := |levels| - 1;
      ContinuesAfterLevels(x, y, earlier, m, side, levels[..n]);
      ContinuesAfterEvent(EmitLevels(x, m, side, levels[..n]), EmitLevels(y, m, side, levels[..n]), earlier,
                          m.asset, Snapshot, side, levels[n], m.recvUs, m.exchangeUs, m.hash);
    }
  }

  lemma ContinuesAfterNotice(x: Dispatch, y: Dispatch, earlier: seq<PersistedRecord>, m: FeedMessage,
                             kind: IngestEventKind)
    requires Continues(x, y, earlier) && m.BookMessage?
    ensures Continues(EmitIngest(x, m.asset, kind, Provenance(x, m.recvUs, m.exchangeUs, m.hash, None)),
                      EmitIngest(y, m.asset, kind, Provenance(y, m.recvUs, m.exchangeUs, m.hash, None)), earlier)
  {
    ContinuesAfterIngest(x, y, earlier, IngestEvent(Some(m.asset), kind,
                                                    Provenance(x, m.recvUs, m.exchangeUs, m.hash, None), None, None));
  }

  lemma ContinuesWithBooks(x: Dispatch, y: Dispatch, earlier: seq<PersistedRecord>, books: map<Asset, Book>)
    requires Continues(x, y, earlier)
    ensures Continues(x.(books := books), y.(books := books), earlier)
  {
  }

  lemma ContinuesAfterAccept(x: Dispatch, y: Dispatch, earlier: seq<PersistedRecord>, m: FeedMessage, b: Book)
    requires Continues(x, y, earlier) && m.BookMessage?
    ensures Continues(AcceptSnapshot(x, m, b), AcceptSnapshot(y, m, b), earlier)
  {
  }

  lemma SameTreatment(x: Dispatch, y: Dispatch, earlier: seq<PersistedRecord>, m: FeedMessage)
    requires Continues(x, y, earlier) && m.BookMessage?
    ensures IsStale(x, m) == IsStale(y, m) && IsRetransmit(x, m) == IsRetransmit(y, m)
    ensures x.books == y.books && x.session == y.session
  {
  }

  lemma ContinuesAfterBook(x: Dispatch, y: Dispatch, earlier: seq<PersistedRecord>, m: FeedMessage)
    requires Continues(x, y, earlier) && m.BookMessage?
    ensures Continues(HandleBook(x, m), HandleBook(y, m), earlier)
  {
    hide EmitLevels, ParseLevels, ApplySnapshot, Continues, AcceptSnapshot, IsStale, IsRetransmit, EmitIngest;
    SameTreatment(x, y, earlier, m);
    if Considered(x, m) {
      if SnapshotBook(m).Ok? {
        var bids, asks, b := ParseLevels(m.bids).value, ParseLevels(m.asks).value, SnapshotBook(m).value;
        var x', y' := AcceptSnapshot(x, m, b), AcceptSnapshot(y, m, b);
        ContinuesAfterAccept(x, y, earlier, m, b);
        ContinuesAfterLevels(x', y', earlier, m, Bid, bids);
        ContinuesAfterLevels(EmitLevels(x', m, Bid, bids), EmitLevels(y', m, Bid, bids), earlier, m, Ask, asks);
      } else {
        var x', y' := x.(books := x.books - {m.asset}), y.(books := y.books - {m.asset});
        ContinuesWithBooks(x, y, earlier, x.books - {m.asset});
        ContinuesAfterNotice(x', y', earlier, m, SourceReset);
      }
    } else {
      ContinuesAfterNotice(x, y, earlier, m, SourceReset);
      ContinuesAfterNotice(x, y, earlier, m, StaleSnapshotSkip);
    }
  }

  lemma ContinuesAfterChange(x: Dispatch, y: Dispatch, earlier: seq<PersistedRecord>, m: FeedMessage, i: nat)
    requires Continues(x, y, earlier) && m.PriceChangeMessage? && i < |m.changes|
    ensures Continues(HandleChange(x, m, i), HandleChange(y, m, i), earlier)
  {
    hide ApplyDelta, Mismatch, LastForAsset, ParseSide, ParseLevel, NextSequence, Continues, EmitBookEvent;
    var c := m.changes[i];
    var side, level := ParseSide(c.side), ParseLevel(WireLevel(c.price, c.size));
    SameShadow(x, y, earlier, c.asset);
    if side.Some? && level.Some? {
      var n := NextSequence(x, c.asset);
      var x', y' := EmitBookEvent(x, c.asset, Delta, side.value, level.value, m.recvUs, m.exchangeUs, c.hash),
                    EmitBookEvent(y, c.asset, Delta, side.value, level.value, m.recvUs, m.exchangeUs, c.hash);
      ContinuesAfterEvent(x, y, earlier, c.asset, Delta, side.value, level.value, m.recvUs, m.exchangeUs, c.hash);
      if c.asset in x.books {
        var p := Provenance(x, m.recvUs, m.exchangeUs, c.hash, Some(n));
        var r := ApplyDelta(x.books[c.asset], side.value, level.value.price, level.value.size, n, m.exchangeUs);
        var books := if r.Ok? then x.books[c.asset := r.value] else x.books - {c.asset};
        ContinuesWithBooks(x', y', earlier, books);
        ContinuesAfterIngest(x'.(books := books), y'.(books := books), earlier,
                             IngestEvent(Some(c.asset), SourceReset, p, None, None));
        ContinuesAfterIngest(x'.(books := books), y'.(books := books), earlier,
                             IngestEvent(Some(c.asset), BookMismatch, p, None, None));
      }
    }
  }

  lemma SameShadow(x: Dispatch, y: Dispatch, earlier: seq<PersistedRecord>, a: Asset)
    requires Continues(x, y, earlier)
    ensures NextSequence(x, a) == NextSequence(y, a) && x.books == y.books && x.session == y.session
  {
  }

  lemma {:induction false} ContinuesAfterChanges(x: Dispatch, y: Dispatch, earlier: seq<PersistedRecord>,
                                                 m: FeedMessage, i: nat)
    requires Continues(x, y, earlier) && m.PriceChangeMessage? && i <= |m.changes|
    ensures Continues(HandleChanges(x, m, i), HandleChanges(y, m, i), earlier)
  {
    hide HandleChange, Continues;
    if i > 0 {
      ContinuesAfterChanges(x, y, earlier, m, i - 1);
      ContinuesAfterChange(HandleChanges(x, m, i - 1), HandleChanges(y, m, i - 1), earlier, m, i - 1);
    }
  }

  lemma ContinuesAfterMessage(x: Dispatch, y: Dispatch, earlier: seq<PersistedRecord>, m: FeedMessage)
    requires Continues(x, y, earlier)
    ensures Continues(Handle(x, m), Handle(y, m), earlier)
  {
    hide HandleBook, HandleChanges;
    match m {
      case BookMessage(_, _, _, _, _, _) => ContinuesAfterBook(x, y, earlier, m);
      case PriceChangeMessage(_, _, changes) => ContinuesAfterChanges(x, y, earlier, m, |changes|);
      case ReconnectStarted(_, _) =>
      case Reconnected(_, _) =>
    }
  }

  lemma {:induction false} ContinuesAfterAll(x: Dispatch, y: Dispatch, earlier: seq<PersistedRecord>,
                                             messages: seq<FeedMessage>)
    requires Continues(x, y, earlier)
    ensures Continues(HandleAll(x, messages), HandleAll(y, messages), earlier)
  {
    hide Continues, Handle;
    if |messages| > 0 {
      var n := |messages| - 1;
      ContinuesAfterAll(x, y, earlier, messages[..n]);
      ContinuesAfterMessage(HandleAll(x, messages[..n]), HandleAll(y, messages[..n]), earlier, messages[n]);
    }
  }

  /**
   After a reconnect nothing earlier matters: whatever messages follow, the dispatcher treats and numbers
   them as one that has just started in that session, and its output is what was sent up to the reconnect,
   with the reconnect and the reset as its last records, followed by that dispatcher's output.
   */
  lemma ReconnectStartsAfresh(d: Dispatch, recvUs: U64, session: string, messages: seq<FeedMessage>)
    ensures var reconnected := Handle(d, Reconnected(recvUs, session));
            && |reconnected.emitted| == |d.emitted| + 2 && d.emitted <= reconnected.emitted
            && reconnected.emitted[|d.emitted|]
               == IngestRecord(IngestEvent(None, ReconnectSuccess,
                                           EventProvenance(recvUs, 0, WebSocket, None, Some(session), None, None),
                                           None, None))
            && IsResetAt(reconnected.emitted[|d.emitted| + 1], recvUs)
            && Continues(HandleAll(reconnected, messages), HandleAll(INITIAL.(session := Some(session)), messages),
                         reconnected.emitted)
  {
    hide HandleAll;
    var reconnected := Handle(d, Reconnected(recvUs, session));
    assert reconnected.emitted + [] == reconnected.emitted;
    ContinuesAfterAll(reconnected, INITIAL.(session := Some(session)), reconnected.emitted, messages);
  }

  /** A continuity reset that concerns every asset. */
  predicate IsResetAt(r: PersistedRecord, recvUs: U64) {
    r.IngestRecord? && r.ingest.asset.None? && r.ingest.kind == SourceReset
      && r.ingest.provenance.recvTimestampUs == recvUs
  }
}
