/**
 The feed dispatcher: it turns venue messages into persisted records, numbering each asset's book events
 and keeping a shadow book to cross-check the venue.
 */
module Dispatcher {
  import opened Types
  import opened OrderBook
  import opened FixedPoint

  const MAX_BOOK_LEVELS_PER_SIDE: nat := 10_000
  const MAX_PRICE_CHANGES_PER_MESSAGE: nat := 20_000

  /** Venue messages after JSON decoding; prices and sizes are still text, timestamps are microseconds. */
  datatype WireLevel = WireLevel(price: string, size: string)

  datatype WireChange = WireChange(
    asset: Asset,
    side: string,
    price: string,
    size: string,
    hash: Option<string>,
    bestBid: Option<string>,
    bestAsk: Option<string>)

  datatype FeedMessage =
    | BookMessage(asset: Asset, recvUs: U64, exchangeUs: U64, hash: Option<string>, bids: seq<WireLevel>,
                  asks: seq<WireLevel>)
    | PriceChangeMessage(recvUs: U64, exchangeUs: U64, changes: seq<WireChange>)
    | ReconnectStarted(recvUs: U64, session: string)
    | Reconnected(recvUs: U64, session: string)

  /**
   The dispatcher's state and everything it has sent. `since` marks, for each asset with a shadow book,
   the output position at which its last accepted snapshot began.
   */
  datatype Dispatch = Dispatch(
    sequences: map<Asset, U64>,
    lastSnapshotTs: map<Asset, U64>,
    lastSnapshotHash: map<Asset, string>,
    books: map<Asset, Book>,
    session: Option<string>,
    emitted: seq<PersistedRecord>,
    since: map<Asset, nat>)

  const INITIAL := Dispatch(map[], map[], map[], map[], None, [], map[])

  function ParseSide(raw: string): Option<Side> {
    if raw in ["BUY", "buy", "Bid", "bid"] then Some(Bid)
    else if raw in ["SELL", "sell", "Ask", "ask"] then Some(Ask)
    else None
  }

  function ParseLevel(w: WireLevel): Option<Level> {
    var price, size := ParsePrice(w.price), ParseSize(w.size);
    if price.Err? || size.Err? then None else Some(Level(price.value, size.value))
  }

  /** All levels of one side, or nothing if any of them is unreadable. */
  function ParseLevels(entries: seq<WireLevel>): Option<seq<Level>> {
    if |entries| == 0 then Some([])
    else
      var init, last := ParseLevels(entries[..|entries| - 1]), ParseLevel(entries[|entries| - 1]);
      if init.None? || last.None? then None else Some(init.value + [last.value])
  }

  // ---------------------------------------------------------------------------------------------
  // The meaning of each message
  // ---------------------------------------------------------------------------------------------

  function Provenance(d: Dispatch, recvUs: U64, exchangeUs: U64, hash: Option<string>,
                      sequence: Option<U64>): EventProvenance {
    EventProvenance(recvUs, exchangeUs, WebSocket, hash, d.session, sequence, None)
  }

  function Emit(d: Dispatch, r: PersistedRecord): Dispatch {
    d.(emitted := d.emitted + [r])
  }

  function EmitIngest(d: Dispatch, asset: Asset, kind: IngestEventKind, p: EventProvenance): Dispatch {
    Emit(d, IngestRecord(IngestEvent(Some(asset), kind, p, None, None)))
  }

  function NextSequence(d: Dispatch, a: Asset): U64 {
    if a in d.sequences then d.sequences[a] else 0
  }

  /** Sends one book event with the asset's next sequence. */
  function EmitBookEvent(d: Dispatch, a: Asset, kind: BookEventKind, side: Side, level: Level,
                         recvUs: U64, exchangeUs: U64, hash: Option<string>): Dispatch {
    var n := NextSequence(d, a);
    Emit(d, BookRecord(BookEvent(a, kind, side, level.price, level.size,
                                 Provenance(d, recvUs, exchangeUs, hash, Some(n)))))
      .(sequences := d.sequences[a := (n + 1) % U64_LIMIT])
  }

  function EmitLevels(d: Dispatch, m: FeedMessage, side: Side, levels: seq<Level>): Dispatch
    requires m.BookMessage?
  {
    if |levels| == 0 then d
    else
      var n := |levels| - 1;
      EmitBookEvent(EmitLevels(d, m, side, levels[..n]), m.asset, Snapshot, side, levels[n], m.recvUs,
                    m.exchangeUs, m.hash)
  }

  predicate IsStale(d: Dispatch, m: FeedMessage)
    requires m.BookMessage?
  {
    m.exchangeUs > 0 && m.asset in d.lastSnapshotTs && m.exchangeUs < d.lastSnapshotTs[m.asset]
  }

  predicate IsRetransmit(d: Dispatch, m: FeedMessage)
    requires m.BookMessage?
  {
    m.hash.Some? && m.asset in d.lastSnapshotHash && d.lastSnapshotHash[m.asset] == m.hash.value
  }

  /** Trackers, shadow book and counter after an accepted snapshot, before its events are sent. */
  function AcceptSnapshot(d: Dispatch, m: FeedMessage, b: Book): Dispatch
    requires m.BookMessage?
  {
    d.(books := d.books[m.asset := b],
       lastSnapshotTs := if m.exchangeUs > 0 then d.lastSnapshotTs[m.asset := m.exchangeUs] else d.lastSnapshotTs,
       lastSnapshotHash := if m.hash.Some? then d.lastSnapshotHash[m.asset := m.hash.value] else d.lastSnapshotHash,
       sequences := d.sequences[m.asset := 0],
       since := d.since[m.asset := |d.emitted|])
  }

  function HandleBook(d: Dispatch, m: FeedMessage): Dispatch
    requires m.BookMessage?
  {
    var p := Provenance(d, m.recvUs, m.exchangeUs, m.hash, None);
    if |m.bids| > MAX_BOOK_LEVELS_PER_SIDE || |m.asks| > MAX_BOOK_LEVELS_PER_SIDE
    then EmitIngest(d, m.asset, SourceReset, p)
    else if IsStale(d, m) then EmitIngest(d, m.asset, StaleSnapshotSkip, p)
    else if IsRetransmit(d, m) then d
    else
      var bids, asks := ParseLevels(m.bids), ParseLevels(m.asks);
      if bids.None? || asks.None? then EmitIngest(d, m.asset, SourceReset, p)
      else
        var r := ApplySnapshot(bids.value, asks.value, 0, m.exchangeUs);
        if r.Err? then EmitIngest(d.(books := d.books - {m.asset}), m.asset, SourceReset, p)
        else EmitLevels(EmitLevels(AcceptSnapshot(d, m, r.value), m, Bid, bids.value), m, Ask, asks.value)
  }

  /** Whether our top price contradicts the venue's; `0` and `1` are the venue's empty-side markers. */
  predicate TopMismatch(side: Side, ours: Option<Level>, venue: Option<string>) {
    if venue.None? then false
    else
      var price := ParsePrice(venue.value);
      if price.Err? then false
      else if price.value == (if side == Bid then 0 else PRICE_SCALE) then ours.Some?
      else ours.None? || ours.value.price != price.value
  }

  predicate Mismatch(b: Book, c: WireChange) {
    TopMismatch(Bid, BestBid(b), c.bestBid) || TopMismatch(Ask, BestAsk(b), c.bestAsk)
  }

  /** The cross-check runs once per asset, after the message's last entry for it. */
  predicate LastForAsset(changes: seq<WireChange>, i: nat)
    requires i < |changes|
  {
    forall j | i < j < |changes| :: changes[j].asset != changes[i].asset
  }

  function HandleChange(d: Dispatch, m: FeedMessage, i: nat): Dispatch
    requires m.PriceChangeMessage? && i < |m.changes|
  {
    var c := m.changes[i];
    var side, level := ParseSide(c.side), ParseLevel(WireLevel(c.price, c.size));
    if side.None? || level.None? then d
    else
      var n := NextSequence(d, c.asset);
      var p := Provenance(d, m.recvUs, m.exchangeUs, c.hash, Some(n));
      var sent := EmitBookEvent(d, c.asset, Delta, side.value, level.value, m.recvUs, m.exchangeUs, c.hash);
      if c.asset !in d.books then sent
      else
        var r := ApplyDelta(d.books[c.asset], side.value, level.value.price, level.value.size, n, m.exchangeUs);
        if r.Err? then EmitIngest(sent.(books := d.books - {c.asset}), c.asset, SourceReset, p)
        else
          var applied := sent.(books := d.books[c.asset := r.value]);
          if LastForAsset(m.changes, i) && Mismatch(r.value, c) then EmitIngest(applied, c.asset, BookMismatch, p)
          else applied
  }

  /** The first `i` entries of a price-change message. */
  function HandleChanges(d: Dispatch, m: FeedMessage, i: nat): Dispatch
    requires m.PriceChangeMessage? && i <= |m.changes|
  {
    if i == 0 then d else HandleChange(HandleChanges(d, m, i - 1), m, i - 1)
  }

  /** A reconnect drops every per-asset tracker and announces a continuity reset. */
  function HandleReconnect(d: Dispatch, recvUs: U64, session: string): Dispatch {
    var p := EventProvenance(recvUs, 0, WebSocket, None, Some(session), None, None);
    Dispatch(map[], map[], map[], map[], Some(session),
             d.emitted + [IngestRecord(IngestEvent(None, ReconnectSuccess, p, None, None)),
                          IngestRecord(IngestEvent(None, SourceReset, p, None, None))],
             map[])
  }

  function Handle(d: Dispatch, m: FeedMessage): Dispatch {
    match m
    case BookMessage(_, _, _, _, _, _) => HandleBook(d, m)
    case PriceChangeMessage(_, _, changes) =>
      if |changes| > MAX_PRICE_CHANGES_PER_MESSAGE then d else HandleChanges(d, m, |changes|)
    case ReconnectStarted(recvUs, session) =>
      Emit(d, IngestRecord(IngestEvent(None, ReconnectStart, EventProvenance(recvUs, 0, WebSocket, None, Some(session),
                                                                             None, None), None, None)))
    case Reconnected(recvUs, session) => HandleReconnect(d, recvUs, session)
  }

  function HandleAll(d: Dispatch, messages: seq<FeedMessage>): Dispatch {
    if |messages| == 0 then d else Handle(HandleAll(d, messages[..|messages| - 1]), messages[|messages| - 1])
  }

  // ---------------------------------------------------------------------------------------------
  // The dispatcher
  // ---------------------------------------------------------------------------------------------

  class Dispatcher {
    var assetSequences: map<Asset, U64>
    var lastSnapshotTs: map<Asset, U64>
    var lastSnapshotHash: map<Asset, string>
    var validationBooks: map<Asset, Book>
    var currentSession: Option<string>
    var sent: seq<PersistedRecord>
    ghost var since: map<Asset, nat>

    ghost function Value(): Dispatch
      reads this
    {
      Dispatch(assetSequences, lastSnapshotTs, lastSnapshotHash, validationBooks, currentSession, sent, since)
    }

    constructor ()
      ensures Value() == INITIAL
    {
      assetSequences, lastSnapshotTs, lastSnapshotHash := map[], map[], map[];
      validationBooks, currentSession, sent, since := map[], None, [], map[];
    }

    method Send(r: PersistedRecord)
      modifies this`sent
      ensures Value() == Emit(old(Value()), r)
    {
      sent := sent + [r];
    }

    function MakeProvenance(recvUs: U64, exchangeUs: U64, hash: Option<string>, sequence: Option<U64>): EventProvenance
      reads this
    {
      EventProvenance(recvUs, exchangeUs, WebSocket, hash, currentSession, sequence, None)
    }

    method NextSequenceFor(a: Asset) returns (n: U64)
      modifies this`assetSequences
      ensures n == NextSequence(old(Value()), a)
      ensures assetSequences == old(assetSequences)[a := (n + 1) % U64_LIMIT]
    {
      if a in assetSequences {
        n := assetSequences[a];
        assetSequences := assetSequences[a := (n + 1) % U64_LIMIT];
      } else {
        n := 0;
        assetSequences := assetSequences[a := 1];
      }
    }

    method SendBookEvent(a: Asset, kind: BookEventKind, side: Side, level: Level, recvUs: U64, exchangeUs: U64,
                         hash: Option<string>)
      returns (n: U64)
      modifies this
      ensures n == NextSequence(old(Value()), a)
      ensures Value() == EmitBookEvent(old(Value()), a, kind, side, level, recvUs, exchangeUs, hash)
    {
      n := NextSequenceFor(a);
      Send(BookRecord(BookEvent(a, kind, side, level.price, level.size,
                                MakeProvenance(recvUs, exchangeUs, hash, Some(n)))));
    }

    method SendLevels(m: FeedMessage, side: Side, levels: seq<Level>)
      requires m.BookMessage?
      modifies this
      ensures Value() == EmitLevels(old(Value()), m, side, levels)
    {
      for i := 0 to |levels|
        invariant Value() == EmitLevels(old(Value()), m, side, levels[..i])
      {
        assert levels[..i + 1][..i] == levels[..i];
        var _ := SendBookEvent(m.asset, Snapshot, side, levels[i], m.recvUs, m.exchangeUs, m.hash);
      }
      assert levels[..|levels|] == levels;
    }

    method DispatchBook(m: FeedMessage)
      requires m.BookMessage?
      modifies this
      ensures Value() == HandleBook(old(Value()), m)
    {
      hide ParseLevels, EmitLevels, ApplySnapshot, Fits;
      var p := MakeProvenance(m.recvUs, m.exchangeUs, m.hash, None);
      if |m.bids| > MAX_BOOK_LEVELS_PER_SIDE || |m.asks| > MAX_BOOK_LEVELS_PER_SIDE {
        Send(IngestRecord(IngestEvent(Some(m.asset), SourceReset, p, None, None)));
        return;
      }
      if m.exchangeUs > 0 && m.asset in lastSnapshotTs && m.exchangeUs < lastSnapshotTs[m.asset] {
        Send(IngestRecord(IngestEvent(Some(m.asset), StaleSnapshotSkip, p, None, None)));
        return;
      }
      if m.hash.Some? && m.asset in lastSnapshotHash && lastSnapshotHash[m.asset] == m.hash.value {
        return;
      }
      // Every level is converted before any tracker moves.
      var bids := ConvertLevels(m.bids);
      var asks := ConvertLevels(m.asks);
      if bids.None? || asks.None? {
        Send(IngestRecord(IngestEvent(Some(m.asset), SourceReset, p, None, None)));
        return;
      }
      var r := ApplySnapshot(bids.value, asks.value, 0, m.exchangeUs);
      if r.Err? {
        validationBooks := validationBooks - {m.asset};
        Send(IngestRecord(IngestEvent(Some(m.asset), SourceReset, p, None, None)));
        return;
      }
      validationBooks := validationBooks[m.asset := r.value];
      if m.exchangeUs > 0 {
        lastSnapshotTs := lastSnapshotTs[m.asset := m.exchangeUs];
      }
      if m.hash.Some? {
        lastSnapshotHash := lastSnapshotHash[m.asset := m.hash.value];
      }
      assetSequences := assetSequences[m.asset := 0];
      since := since[m.asset := |sent|];
      SendLevels(m, Bid, bids.value);
      SendLevels(m, Ask, asks.value);
    }

    method DispatchPriceChange(m: FeedMessage)
      requires m.PriceChangeMessage?
      modifies this
      ensures Value() == Handle(old(Value()), m)
    {
      if |m.changes| > MAX_PRICE_CHANGES_PER_MESSAGE {
        return;
      }
      for i := 0 to |m.changes|
        invariant Value() == HandleChanges(old(Value()), m, i)
      {
        DispatchChange(m, i);
      }
    }

    method DispatchChange(m: FeedMessage, i: nat)
      requires m.PriceChangeMessage? && i < |m.changes|
      modifies this
      ensures Value() == HandleChange(old(Value()), m, i)
    {
      var c := m.changes[i];
      var side, level := ParseSide(c.side), ParseLevel(WireLevel(c.price, c.size));
      if side.None? || level.None? {
        return;
      }
      var n := SendBookEvent(c.asset, Delta, side.value, level.value, m.recvUs, m.exchangeUs, c.hash);
      if c.asset !in validationBooks {
        return;
      }
      var p := MakeProvenance(m.recvUs, m.exchangeUs, c.hash, Some(n));
      var r := ApplyDelta(validationBooks[c.asset], side.value, level.value.price, level.value.size, n, m.exchangeUs);
      if r.Err? {
        validationBooks := validationBooks - {c.asset};
        Send(IngestRecord(IngestEvent(Some(c.asset), SourceReset, p, None, None)));
        return;
      }
      validationBooks := validationBooks[c.asset := r.value];
      if LastForAsset(m.changes, i) && Mismatch(r.value, c) {
        Send(IngestRecord(IngestEvent(Some(c.asset), BookMismatch, p, None, None)));
      }
    }

    method DispatchReconnect(recvUs: U64, session: string)
      modifies this
      ensures Value() == HandleReconnect(old(Value()), recvUs, session)
    {
      currentSession := Some(session);
      assetSequences, lastSnapshotTs, lastSnapshotHash, validationBooks := map[], map[], map[], map[];
      since := map[];
      var p := EventProvenance(recvUs, 0, WebSocket, None, Some(session), None, None);
      Send(IngestRecord(IngestEvent(None, ReconnectSuccess, p, None, None)));
      Send(IngestRecord(IngestEvent(None, SourceReset, p, None, None)));
    }

    /** The dispatcher handles each message as `Handle` says. */
    method DispatchMessage(m: FeedMessage)
      modifies this
      ensures Value() == Handle(old(Value()), m)
    {
      match m {
        case BookMessage(_, _, _, _, _, _) => DispatchBook(m);
        case PriceChangeMessage(_, _, _) => DispatchPriceChange(m);
        case ReconnectStarted(recvUs, session) =>
          Send(IngestRecord(IngestEvent(None, ReconnectStart, EventProvenance(recvUs, 0, WebSocket, None, Some(session),
                                                                              None, None), None, None)));
        case Reconnected(recvUs, session) => DispatchReconnect(recvUs, session);
      }
    }
  }

  method ConvertLevels(entries: seq<WireLevel>) returns (levels: Option<seq<Level>>)
    ensures levels == ParseLevels(entries)
  {
    var done: seq<Level> := [];
    for i := 0 to |entries|
      invariant ParseLevels(entries[..i]) == Some(done)
    {
      assert entries[..i + 1][..i] == entries[..i];
      var level := ParseLevel(entries[i]);
      if level.None? {
        UnreadableLevel(entries, i);
        return None;
      }
      done := done + [level.value];
    }
    assert entries[..|entries|] == entries;
    return Some(done);
  }

  lemma {:induction false} UnreadableLevel(entries: seq<WireLevel>, i: nat)
    requires i < |entries| && ParseLevel(entries[i]).None?
    ensures ParseLevels(entries).None?
    decreases |entries|
  {
    if i < |entries| - 1 {
      UnreadableLevel(entries[..|entries| - 1], i);
    }
  }
}
