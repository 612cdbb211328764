/** What the dispatcher makes of single venue messages, in terms of their text and of the messages before them. */
module Admission {
  import opened Types
  import opened OrderBook
  import opened FixedPoint
  import opened LiveReplay
  import opened Dispatcher
  import opened DispatcherTheorems

  // ---------------------------------------------------------------------------------------------
  // Price-change entries
  // ---------------------------------------------------------------------------------------------

  predicate BuyText(text: string) {
    text == "BUY" || text == "buy" || text == "Bid" || text == "bid"
  }

  predicate SellText(text: string) {
    text == "SELL" || text == "sell" || text == "Ask" || text == "ask"
  }

  /** The entry names this side, and its texts spell this price and this size. */
  ghost predicate Says(c: WireChange, side: Side, p: Price, z: U64) {
    && (if side == Bid then BuyText(c.side) else SellText(c.side))
    && Denotes(c.price, 4, p) && Denotes(c.size, 6, z)
  }

  lemma SaysIff(c: WireChange, side: Side, p: Price, z: U64)
    ensures Says(c, side, p, z) <==>
              ParseSide(c.side) == Some(side) && ParseLevel(WireLevel(c.price, c.size)) == Some(Level(p, z))
  {
    hide ParsePrice, ParseSize, Denotes;
    ParsePriceIff(c.price, p);
    ParseSizeIff(c.size, z);
  }

  /** An entry with a printed price and a printed size says just these. */
  lemma PrintedIsSaid(c: WireChange, side: Side, p: Price, z: U64)
    requires (if side == Bid then BuyText(c.side) else SellText(c.side)) && c.price == ShowPrice(p)
             && c.size == ShowSize(z)
    ensures Says(c, side, p, z)
  {
    hide ParsePrice, ParseSize, ShowPrice, ShowSize, Denotes;
    PriceRoundTrip(p);
    SizeRoundTrip(z);
    ParsePriceIff(c.price, p);
    ParseSizeIff(c.size, z);
  }

  /** The best price the venue states is that of these levels, `marker` standing for none; other texts say nothing. */
  ghost predicate TopAgrees(levels: Levels, venue: Option<string>, highest: bool, marker: nat) {
    venue.Some? ==>
      forall v: Price | Denotes(venue.value, 4, v) ::
        if v == marker then levels == map[]
        else v in levels && forall p <- levels :: if highest then p <= v else p >= v
  }

  lemma BidTopIff(b: Book, venue: Option<string>)
    ensures TopMismatch(Bid, BestBid(b), venue) <==> !TopAgrees(b.bids, venue, true, 0)
  {
    hide ParsePrice, Denotes, BestBid;
    BestBidIsHighest(b);
    if venue.Some? {
      forall v: Price ensures ParsePrice(venue.value) == Ok(v) <==> Denotes(venue.value, 4, v) {
        ParsePriceIff(venue.value, v);
      }
    }
  }

  lemma AskTopIff(b: Book, venue: Option<string>)
    ensures TopMismatch(Ask, BestAsk(b), venue) <==> !TopAgrees(b.asks, venue, false, PRICE_SCALE)
  {
    hide ParsePrice, Denotes, BestAsk;
    BestAskIsLowest(b);
    if venue.Some? {
      forall v: Price ensures ParsePrice(venue.value) == Ok(v) <==> Denotes(venue.value, 4, v) {
        ParsePriceIff(venue.value, v);
      }
    }
  }

  /** The venue's best prices are those of the book, as far as it states any. */
  ghost predicate TopsAgree(bids: Levels, asks: Levels, c: WireChange) {
    TopAgrees(bids, c.bestBid, true, 0) && TopAgrees(asks, c.bestAsk, false, PRICE_SCALE)
  }

  /** The one event an entry sends. */
  function EntryEvent(d: Dispatch, m: FeedMessage, c: WireChange, side: Side, p: Price, z: U64): BookEvent
    requires m.PriceChangeMessage?
  {
    BookEvent(c.asset, Delta, side, p, z,
              EventProvenance(m.recvUs, m.exchangeUs, WebSocket, c.hash, d.session,
                              Some(NextSequence(d, c.asset)), None))
  }

  /** What else an entry sends, and what becomes of the asset's shadow book. */
  ghost predicate ShadowFollows(d: Dispatch, d': Dispatch, m: FeedMessage, i: nat, side: Side, p: Price, z: U64)
    requires m.PriceChangeMessage? && i < |m.changes|
  {
    var c := m.changes[i];
    var a, e := c.asset, EntryEvent(d, m, c, side, p, z);
    var sent := d.emitted + [BookRecord(e)];
    if a !in d.books then d'.books == d.books && d'.emitted == sent
    else
      var bids := if side == Bid then WithLevel(d.books[a].bids, p, z) else d.books[a].bids;
      var asks := if side == Ask then WithLevel(d.books[a].asks, p, z) else d.books[a].asks;
      if Total(if side == Bid then bids else asks) >= U64_LIMIT then
        && d'.books == (map b | b in d.books && b != a :: d.books[b])
        && d'.emitted == sent + [IngestRecord(IngestEvent(Some(a), SourceReset, e.provenance, None, None))]
      else
        && d'.books.Keys == d.books.Keys && (forall b <- d.books | b != a :: d'.books[b] == d.books[b])
        && d'.books[a].bids == bids && d'.books[a].asks == asks
        && d'.emitted == sent + if (forall j | i < j < |m.changes| :: m.changes[j].asset != a)
           && !TopsAgree(bids, asks, c)
                                then [IngestRecord(IngestEvent(Some(a), BookMismatch, e.provenance, None, None))]
                                  else []
  }

  /**
   An entry that buys or sells sends one bid or ask delta of its price and size with the asset's next number.
   If the asset has a shadow book, that price of that side is set, or the book dropped with a reset if the total
   no longer fits; and after the asset's last entry a mismatch is reported if and only if the venue's best
   prices are not the book's. Nothing else changes.
   */
  lemma EntryArrives(d: Dispatch, m: FeedMessage, i: nat, side: Side, p: Price, z: U64)
    requires m.PriceChangeMessage? && i < |m.changes| && Says(m.changes[i], side, p, z)
    ensures var d', a := HandleChange(d, m, i), m.changes[i].asset;
            && ShadowFollows(d, d', m, i, side, p, z)
            && d'.sequences == d.sequences[a := if NextSequence(d, a) == U64_LIMIT - 1 then 0
                                           else NextSequence(d, a) + 1]
            && d'.lastSnapshotTs == d.lastSnapshotTs && d'.lastSnapshotHash == d.lastSnapshotHash
            && d'.session == d.session && d'.since == d.since
  {
    hide Says, ParseSide, ParseLevel, EmitBookEvent, ApplyDelta, Mismatch, TopsAgree, Total, WithLevel, NextSequence;
    var c := m.changes[i];
    var a, n := c.asset, NextSequence(d, c.asset);
    SaysIff(c, side, p, z);
    EntrySent(d, m, c, side, p, z);
    if a in d.books {
      DeltaSets(d.books[a], side, p, z, n, m.exchangeUs);
      var r := ApplyDelta(d.books[a], side, p, z, n, m.exchangeUs);
      if r.Ok? {
        MismatchIff(r.value, c);
      }
    }
  }

  lemma EntrySent(d: Dispatch, m: FeedMessage, c: WireChange, side: Side, p: Price, z: U64)
    requires m.PriceChangeMessage?
    ensures var n := NextSequence(d, c.asset);
            EmitBookEvent(d, c.asset, Delta, side, Level(p, z), m.recvUs, m.exchangeUs, c.hash)
            == d.(emitted := d.emitted + [BookRecord(EntryEvent(d, m, c, side, p, z))],
                  sequences := d.sequences[c.asset := if n == U64_LIMIT - 1 then 0 else n + 1])
  {
    hide NextSequence;
  }

  lemma DeltaSets(b: Book, side: Side, p: Price, z: U64, n: U64, ts: U64)
    ensures var r := ApplyDelta(b, side, p, z, n, ts);
            var bids := if side == Bid then WithLevel(b.bids, p, z) else b.bids;
            var asks := if side == Ask then WithLevel(b.asks, p, z) else b.asks;
            if Total(if side == Bid then bids else asks) >= U64_LIMIT then r.Err?
            else r.Ok? && r.value.bids == bids && r.value.asks == asks
  {
    hide WithLevel, Total;
  }

  lemma MismatchIff(b: Book, c: WireChange)
    ensures Mismatch(b, c) <==> !TopsAgree(b.bids, b.asks, c)
  {
    hide TopMismatch, TopAgrees, BestBid, BestAsk;
    BidTopIff(b, c.bestBid);
    AskTopIff(b, c.bestAsk);
  }

  /** An entry with any other side text, or whose price or size text spells nothing on the grid, is skipped. */
  lemma OtherEntriesSkipped(d: Dispatch, m: FeedMessage, i: nat)
    requires m.PriceChangeMessage? && i < |m.changes| && forall side, p: Price, z: U64 ::
             !Says(m.changes[i], side, p, z)
    ensures HandleChange(d, m, i) == d
  {
    hide Says, ParseSide, ParseLevel;
    var c := m.changes[i];
    var side, level := ParseSide(c.side), ParseLevel(WireLevel(c.price, c.size));
    if side.Some? && level.Some? {
      SaysIff(c, side.value, level.value.price, level.value.size);
    }
  }

  /** Each entry of a message within the cap is handled after those before it; an oversized message is dropped. */
  lemma EntriesInOrder(d: Dispatch, m: FeedMessage, i: nat)
    requires m.PriceChangeMessage?
    ensures |m.changes| > 20_000 ==> Handle(d, m) == d
    ensures i < |m.changes| <= 20_000 ==>
              HandleChanges(d, m, i + 1) == HandleChange(HandleChanges(d, m, i), m, i)
              && HandleChanges(d, m, 0) == d && Handle(d, m) == HandleChanges(d, m, |m.changes|)
  {
    hide HandleChange;
  }

  // ---------------------------------------------------------------------------------------------
  // Snapshots
  // ---------------------------------------------------------------------------------------------

  /** The i-th message is an accepted snapshot of the asset that no reconnect has made the dispatcher forget. */
  ghost predicate Remembered(messages: seq<FeedMessage>, i: nat, a: Asset): (r: bool)
    requires i < |messages|
    ensures r ==> messages[i].BookMessage? && messages[i].asset == a
  {
    && messages[i].BookMessage? && Accepted(HandleAll(INITIAL, messages[..i]), messages[i]) && messages[i].asset == a
    && forall k | i < k < |messages| :: !messages[k].Reconnected?
  }

  /** Some remembered snapshot of the asset is later than this one. */
  ghost predicate Overtaken(messages: seq<FeedMessage>, m: FeedMessage)
    requires m.BookMessage?
  {
    m.exchangeUs > 0 && exists i :: 0 <= i < |messages| && Remembered(messages, i, m.asset)
                                    && messages[i].exchangeUs > m.exchangeUs
  }

  /** The last remembered snapshot of the asset that has a hash has this hash. */
  ghost predicate LastHashIs(messages: seq<FeedMessage>, a: Asset, hash: string) {
    exists i :: 0 <= i < |messages| && Remembered(messages, i, a) && messages[i].hash == Some(hash)
                && forall j | i < j < |messages| && Remembered(messages, j, a) :: messages[j].hash.None?
  }

  lemma RememberedBefore(messages: seq<FeedMessage>, n: nat, i: nat, a: Asset)
    requires |messages| == n + 1 && i < n
    ensures Remembered(messages, i, a) <==> Remembered(messages[..n], i, a) && !messages[n].Reconnected?
  {
    hide Accepted, HandleAll;
    assert messages[..n][..i] == messages[..i];
    assert messages[..n][i] == messages[i];
    if Remembered(messages[..n], i, a) && !messages[n].Reconnected? {
      forall k | i < k < |messages| ensures !messages[k].Reconnected? {
        if k < n {
          assert messages[..n][k] == messages[k];
        }
      }
    }
  }

  /** The tracked time of an asset is that of some remembered snapshot. */
  lemma {:induction false} TrackedIsRemembered(messages: seq<FeedMessage>, a: Asset)
    requires a in HandleAll(INITIAL, messages).lastSnapshotTs
    ensures exists i :: 0 <= i < |messages| && Remembered(messages, i, a)
                        && messages[i].exchangeUs == HandleAll(INITIAL, messages).lastSnapshotTs[a]
  {
    hide Handle, Accepted, Remembered;
    if |messages| > 0 {
      var n := |messages| - 1;
      var before := HandleAll(INITIAL, messages[..n]);
      TrackerAfter(before, messages[n]);
      TakenIfAccepted(messages, n);
      if !(Remembered(messages, n, a) && messages[n].exchangeUs > 0) {
        TrackedIsRemembered(messages[..n], a);
        var i :| 0 <= i < n && Remembered(messages[..n], i, a)
                 && messages[..n][i].exchangeUs == before.lastSnapshotTs[a];
        RememberedBefore(messages, n, i, a);
      }
    }
  }

  lemma TakenIfAccepted(messages: seq<FeedMessage>, n: nat)
    requires |messages| == n + 1
    ensures Accepted(HandleAll(INITIAL, messages[..n]), messages[n])
            <==> messages[n].BookMessage? && Remembered(messages, n, messages[n].asset)
  {
    hide HandleAll, Considered, SnapshotBook;
  }

  /** A snapshot is stale if and only if a later one was accepted since the last reconnect. */
  lemma StaleIff(messages: seq<FeedMessage>, m: FeedMessage)
    requires m.BookMessage?
    ensures IsStale(HandleAll(INITIAL, messages), m) <==> Overtaken(messages, m)
  {
    hide HandleAll, Accepted;
    var d := HandleAll(INITIAL, messages);
    if IsStale(d, m) {
      TrackedIsRemembered(messages, m.asset);
    }
    if Overtaken(messages, m) {
      var i :| 0 <= i < |messages| && Remembered(messages, i, m.asset) && messages[i].exchangeUs > m.exchangeUs;
      TrackedSince(INITIAL, messages, i, |messages|);
      assert messages[..|messages|] == messages;
    }
  }

  /** The last hash remembered, after one more message. */
  lemma LastHashAfter(messages: seq<FeedMessage>, n: nat, a: Asset, hash: string)
    requires |messages| == n + 1
    ensures LastHashIs(messages, a, hash)
            <==> if messages[n].Reconnected? then false
                 else if Remembered(messages, n, a) && messages[n].hash.Some? then messages[n].hash == Some(hash)
                 else LastHashIs(messages[..n], a, hash)
  {
    hide Accepted, HandleAll;
    TakenIfAccepted(messages, n);
    hide Remembered;
    forall i | 0 <= i < n
      ensures Remembered(messages, i, a) <==> Remembered(messages[..n], i, a) && !messages[n].Reconnected?
    {
      RememberedBefore(messages, n, i, a);
    }
    if messages[n].Reconnected? {
      return;
    }
    if LastHashIs(messages[..n], a, hash) && !(Remembered(messages, n, a) && messages[n].hash.Some?) {
      var i :| 0 <= i < n && Remembered(messages[..n], i, a) && messages[..n][i].hash == Some(hash)
               && forall j | i < j < n && Remembered(messages[..n], j, a) :: messages[..n][j].hash.None?;
      forall j | i < j < |messages| && Remembered(messages, j, a) ensures messages[j].hash.None? {
        assert j < n ==> messages[..n][j] == messages[j];
      }
      assert LastHashIs(messages, a, hash);
    }
  }

  lemma {:induction false} LastHashTracked(messages: seq<FeedMessage>, a: Asset, hash: string)
    ensures var tracked := HandleAll(INITIAL, messages).lastSnapshotHash;
            a in tracked && tracked[a] == hash <==> LastHashIs(messages, a, hash)
  {
    if |messages| > 0 {
      hide Handle, Accepted, Remembered, LastHashIs;
      var n := |messages| - 1;
      LastHashTracked(messages[..n], a, hash);
      LastHashAfter(messages, n, a, hash);
      TrackerAfter(HandleAll(INITIAL, messages[..n]), messages[n]);
      TakenIfAccepted(messages, n);
    }
  }

  /** A snapshot repeats one if and only if it has the last hash accepted since the last reconnect. */
  lemma RetransmitIff(messages: seq<FeedMessage>, m: FeedMessage)
    requires m.BookMessage?
    ensures IsRetransmit(HandleAll(INITIAL, messages), m)
            <==> m.hash.Some? && LastHashIs(messages, m.asset, m.hash.value)
  {
    hide HandleAll, LastHashIs;
    if m.hash.Some? {
      LastHashTracked(messages, m.asset, m.hash.value);
    }
  }

  /** The texts spell exactly these levels. */
  ghost predicate SpellsLevels(entries: seq<WireLevel>, levels: seq<Level>) {
    |entries| == |levels| && forall i | 0 <= i < |entries| :: SpellsLevel(entries[i], levels[i])
  }

  ghost predicate SpellsLevel(w: WireLevel, l: Level) {
    Denotes(w.price, 4, l.price) && Denotes(w.size, 6, l.size)
  }

  lemma SpellsLevelIff(w: WireLevel, l: Level)
    ensures ParseLevel(w) == Some(l) <==> SpellsLevel(w, l)
  {
    hide ParsePrice, ParseSize, Denotes;
    ParsePriceIff(w.price, l.price);
    ParseSizeIff(w.size, l.size);
  }

  /** Levels are read exactly as they are spelled, all of them or none. */
  lemma {:induction false} SpellsIff(entries: seq<WireLevel>, levels: seq<Level>)
    ensures ParseLevels(entries) == Some(levels) <==> SpellsLevels(entries, levels)
  {
    hide ParseLevel, SpellsLevel;
    ParsedLength(entries);
    if |entries| > 0 && |entries| == |levels| {
      var n := |entries| - 1;
      SpellsIff(entries[..n], levels[..n]);
      SpellsLevelIff(entries[n], levels[n]);
      AllButLast(levels);
      assert SpellsLevels(entries, levels)
             <==> SpellsLevels(entries[..n], levels[..n]) && SpellsLevel(entries[n], levels[n]);
    }
  }

  /** The announcement a snapshot that is not taken may leave. */
  function Notice(d: Dispatch, m: FeedMessage, kind: IngestEventKind): PersistedRecord
    requires m.BookMessage?
  {
    IngestRecord(IngestEvent(Some(m.asset), kind, EventProvenance(m.recvUs, m.exchangeUs, WebSocket, m.hash, d.session,
                                                                  None, None), None, None))
  }

  /**
   What becomes of a snapshot that spells levels after any run of messages: it is dropped with a reset if it is
   too long; skipped with a notice if overtaken; skipped silently if it has the last hash; dropped with the
   shadow book and a reset if a side overflows; and otherwise taken, its levels becoming the shadow book's.
   */
  lemma SpelledSnapshotFate(messages: seq<FeedMessage>, m: FeedMessage, bids: seq<Level>, asks: seq<Level>)
    requires m.BookMessage? && SpellsLevels(m.bids, bids) && SpellsLevels(m.asks, asks)
    ensures var d := HandleAll(INITIAL, messages);
            var d' := Handle(d, m);
            if |bids| > 10_000 || |asks| > 10_000 then d' == d.(emitted := d.emitted + [Notice(d, m, SourceReset)])
            else if Overtaken(messages, m) then d' == d.(emitted := d.emitted + [Notice(d, m, StaleSnapshotSkip)])
            else if m.hash.Some? && LastHashIs(messages, m.asset, m.hash.value) then d' == d
            else if !PrefixesFit(bids) || !PrefixesFit(asks) then
              d' == d.(books := d.books - {m.asset}, emitted := d.emitted + [Notice(d, m, SourceReset)])
            else
              && m.asset in d'.books && d'.books[m.asset].bids == LastWins(bids)
              && d'.books[m.asset].asks == LastWins(asks)
              && d'.books.Keys == d.books.Keys + {m.asset}
              && forall b <- d.books | b != m.asset :: d'.books[b] == d.books[b]
  {
    hide HandleAll, Handle, HandleBook, ParseLevels, PrefixesFit, LastWins, Overtaken, LastHashIs, IsStale,
      IsRetransmit, SpellsLevels, SnapshotBook;
    var d := HandleAll(INITIAL, messages);
    StaleIff(messages, m);
    RetransmitIff(messages, m);
    SpellsIff(m.bids, bids);
    SpellsIff(m.asks, asks);
    ParsedLength(m.bids);
    ParsedLength(m.asks);
    SnapshotFate(d, m, bids, asks);
  }

  /** A snapshot with a level that spells nothing on the grid is treated alike, but is never taken. */
  lemma UnreadableSnapshotFate(messages: seq<FeedMessage>, m: FeedMessage)
    requires m.BookMessage?
    requires forall bids, asks :: !(SpellsLevels(m.bids, bids) && SpellsLevels(m.asks, asks))
    ensures var d := HandleAll(INITIAL, messages);
            var d' := Handle(d, m);
            if |m.bids| > 10_000 || |m.asks| > 10_000 then d' == d.(emitted := d.emitted + [Notice(d, m, SourceReset)])
            else if Overtaken(messages, m) then d' == d.(emitted := d.emitted + [Notice(d, m, StaleSnapshotSkip)])
            else if m.hash.Some? && LastHashIs(messages, m.asset, m.hash.value) then d' == d
            else d' == d.(emitted := d.emitted + [Notice(d, m, SourceReset)])
  {
    hide HandleAll, ParseLevels, Overtaken, LastHashIs, IsStale, IsRetransmit, SpellsLevels, ApplySnapshot, EmitLevels;
    StaleIff(messages, m);
    RetransmitIff(messages, m);
    var bids, asks := ParseLevels(m.bids), ParseLevels(m.asks);
    if bids.Some? && asks.Some? {
      SpellsIff(m.bids, bids.value);
      SpellsIff(m.asks, asks.value);
    }
  }

  /** What becomes of a readable snapshot, by the trackers. */
  lemma SnapshotFate(d: Dispatch, m: FeedMessage, bids: seq<Level>, asks: seq<Level>)
    requires m.BookMessage? && ParseLevels(m.bids) == Some(bids) && ParseLevels(m.asks) == Some(asks)
    ensures var d' := Handle(d, m);
            if !WithinLimits(m) then d' == d.(emitted := d.emitted + [Notice(d, m, SourceReset)])
            else if IsStale(d, m) then d' == d.(emitted := d.emitted + [Notice(d, m, StaleSnapshotSkip)])
            else if IsRetransmit(d, m) then d' == d
            else if !PrefixesFit(bids) || !PrefixesFit(asks) then
              d' == d.(books := d.books - {m.asset}, emitted := d.emitted + [Notice(d, m, SourceReset)])
            else
              && d'.books.Keys == d.books.Keys + {m.asset}
              && (forall b <- d.books | b != m.asset :: d'.books[b] == d.books[b])
              && d'.books[m.asset].bids == LastWins(bids) && d'.books[m.asset].asks == LastWins(asks)
  {
    hide ParseLevels, PrefixesFit, LastWins, IsStale, IsRetransmit, EmitLevels;
    if PrefixesFit(bids) && PrefixesFit(asks) {
      var taken := AcceptSnapshot(d, m, ApplySnapshot(bids, asks, 0, m.exchangeUs).value);
      EmitLevelsKeepsBooks(taken, m, Bid, bids);
      EmitLevelsKeepsBooks(EmitLevels(taken, m, Bid, bids), m, Ask, asks);
    }
  }

  lemma {:induction false} EmitLevelsKeepsBooks(d: Dispatch, m: FeedMessage, side: Side, levels: seq<Level>)
    requires m.BookMessage?
    ensures EmitLevels(d, m, side, levels).books == d.books
  {
    if |levels| > 0 {
      EmitLevelsKeepsBooks(d, m, side, levels[..|levels| - 1]);
    }
  }

  /** The event a level of a snapshot is sent as; its number is its place among all levels, bids before asks. */
  function LevelRecord(d: Dispatch, m: FeedMessage, side: Side, level: Level, n: nat): PersistedRecord
    requires m.BookMessage? && n < U64_LIMIT
  {
    BookRecord(BookEvent(m.asset, Snapshot, side, level.price, level.size,
                         EventProvenance(m.recvUs, m.exchangeUs, WebSocket, m.hash, d.session, Some(n), None)))
  }

  /** One record for each level, numbered from `from`. */
  ghost predicate LevelRecords(records: seq<PersistedRecord>, d: Dispatch, m: FeedMessage, side: Side,
                               levels: seq<Level>, from: nat)
    requires m.BookMessage? && from + |levels| < U64_LIMIT
  {
    |records| == |levels| && forall i | 0 <= i < |levels| :: records[i] == LevelRecord(d, m, side, levels[i], from + i)
  }

  lemma {:induction false} LevelsAreSent(d: Dispatch, m: FeedMessage, side: Side, levels: seq<Level>)
    returns (records: seq<PersistedRecord>)
    requires m.BookMessage? && NextSequence(d, m.asset) + |levels| < U64_LIMIT
    ensures LevelRecords(records, d, m, side, levels, NextSequence(d, m.asset))
    ensures var d' := EmitLevels(d, m, side, levels);
            && d'.emitted == d.emitted + records && d'.session == d.session
            && NextSequence(d', m.asset) == NextSequence(d, m.asset) + |levels|
  {
    hide EmitBookEvent, NextSequence, LevelRecord;
    if |levels| == 0 {
      records := [];
    } else {
      var n := |levels| - 1;
      var init := LevelsAreSent(d, m, side, levels[..n]);
      var before := EmitLevels(d, m, side, levels[..n]);
      LevelIsSent(d, before, m, side, levels[n]);
      records := init + [LevelRecord(d, m, side, levels[n], NextSequence(before, m.asset))];
    }
  }

  lemma LevelIsSent(d: Dispatch, before: Dispatch, m: FeedMessage, side: Side, level: Level)
    requires m.BookMessage? && d.session == before.session && NextSequence(before, m.asset) + 1 < U64_LIMIT
    ensures var n := NextSequence(before, m.asset);
            var d' := EmitBookEvent(before, m.asset, Snapshot, side, level, m.recvUs, m.exchangeUs, m.hash);
            && d'.emitted == before.emitted + [LevelRecord(d, m, side, level, n)] && d'.session == d.session
            && NextSequence(d', m.asset) == n + 1
  {
  }

  /** A taken snapshot sends one event per level, bids before asks, in the message's order, numbered from zero. */
  lemma TakenSnapshotSends(d: Dispatch, m: FeedMessage)
    returns (bidRecords: seq<PersistedRecord>, askRecords: seq<PersistedRecord>)
    requires Accepted(d, m)
    ensures var bids, asks := ParseLevels(m.bids).value, ParseLevels(m.asks).value;
            && |bids| == |m.bids| <= 10_000 && |asks| == |m.asks| <= 10_000
            && LevelRecords(bidRecords, d, m, Bid, bids, 0) && LevelRecords(askRecords, d, m, Ask, asks, |bids|)
            && Handle(d, m).emitted == d.emitted + bidRecords + askRecords
            && NextSequence(Handle(d, m), m.asset) == |bids| + |asks|
  {
    hide ParseLevels, ApplySnapshot, EmitLevels, IsStale, IsRetransmit;
    var bids, asks := ParseLevels(m.bids).value, ParseLevels(m.asks).value;
    ParsedLength(m.bids);
    ParsedLength(m.asks);
    var taken := AcceptSnapshot(d, m, SnapshotBook(m).value);
    bidRecords := LevelsAreSent(taken, m, Bid, bids);
    askRecords := LevelsAreSent(EmitLevels(taken, m, Bid, bids), m, Ask, asks);
  }
}
