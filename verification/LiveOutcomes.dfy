/** What one record leaves behind in the live state: books, flags, times, warnings and the group held back. */
module LiveOutcomes {
  import opened Types
  import opened OrderBook
  import opened LiveState
  import opened Projector

  /**
   The asset took a book at these times, with a warning if the book is crossed; or the book was refused, and
   only a warning is left.
   */
  ghost predicate Took(st: AssetState, st': AssetState, r: Result<Book, BookError>, snapshot: bool, recvUs: U64,
                       exchangeUs: U64)
  {
    if r.Err? then st' == st.(latestWarning := Some(ContinuityWarning(BookApplyError, recvUs, exchangeUs)))
    else
      && st'.book == r.value && (st'.initializedFromSnapshot <==> snapshot || st.initializedFromSnapshot)
      && st'.lastRecvTimestampUs == Some(recvUs) && st'.lastExchangeTimestampUs == Some(exchangeUs)
      && st'.latestWarning == if Crossed(r.value) then Some(ContinuityWarning(CrossedBookSeen, recvUs, exchangeUs))
                              else st.latestWarning
  }

  /** The record is one more event of the pending snapshot group: same asset, same times, same venue id. */
  predicate Continues(s: State, r: PersistedRecord) {
    && s.pending.Some? && r.BookRecord? && r.event.kind == Snapshot
    && var key, p := s.pending.value.key, r.event.provenance;
       && key.asset == r.event.asset && key.recvTimestampUs == p.recvTimestampUs
       && key.exchangeTimestampUs == p.exchangeTimestampUs && key.sourceEventId == p.sourceEventId
  }

  lemma FlushesIff(s: State, r: PersistedRecord)
    ensures Flushes(s, r) <==> s.pending.Some? && !Continues(s, r)
  {
  }

  /**
   A record that does not continue the pending group has it applied first: the group's asset takes its levels,
   side by side, or keeps its book and is warned. No other asset changes.
   */
  lemma PendingIsApplied(s: State, r: PersistedRecord)
    requires s.pending.Some? && !Continues(s, r)
    ensures var g, a := s.pending.value, s.pending.value.key.asset;
            var s' := BeforeRecord(s, r);
            && s'.pending == None && s'.assets.Keys == s.assets.Keys + {a}
            && (forall b <- s.assets | b != a :: s'.assets[b] == s.assets[b])
            && s'.metadata == s.metadata && s'.activeAssets == s.activeAssets
            && Took(AssetOrNew(s.assets, a), s'.assets[a],
                    ApplySnapshot(g.bids, g.asks, g.sequence, g.lastRecvTimestampUs), true, g.lastRecvTimestampUs,
                    g.key.exchangeTimestampUs)
  {
    hide ApplySnapshot, CheckIntegrity;
    FlushesIff(s, r);
    var g := s.pending.value;
    IntegrityMeansUncrossed(MaterializedAsset(AssetOrNew(s.assets, g.key.asset), g).book);
  }

  function Joined(levels: seq<Level>, e: BookEvent, side: Side): seq<Level> {
    if e.side == side then levels + [Level(e.price, e.size)] else levels
  }

  /**
   A snapshot event joins the pending group if it continues it and otherwise starts one of its own. Its asset's
   book, flag and warning stay; only its times move. Any other record leaves no group pending.
   */
  lemma EventIsGrouped(s: State, r: PersistedRecord)
    ensures var flushed, s' := BeforeRecord(s, r), ApplyRecord(s, r);
            if r.BookRecord? && r.event.kind == Snapshot then
              var e, p := r.event, r.event.provenance;
              var earlier := if Continues(s, r) then s.pending else None;
              && s'.pending == Some(PendingSnapshot(
                                      SnapshotGroupKey(e.asset, p.recvTimestampUs, p.exchangeTimestampUs,
                                                       p.sourceEventId),
                                      Joined(if earlier.Some? then earlier.value.bids else [], e, Bid),
                                      Joined(if earlier.Some? then earlier.value.asks else [], e, Ask),
                                      if p.sequence.Some? then p.sequence.value else 0,
                                      p.recvTimestampUs))
              && s'.assets == flushed.assets[e.asset := AssetOrNew(flushed.assets, e.asset).(
                                lastRecvTimestampUs := Some(p.recvTimestampUs),
                                lastExchangeTimestampUs := Some(p.exchangeTimestampUs))]
              && s'.metadata == s.metadata && s'.activeAssets == s.activeAssets
            else s'.pending == None
  {
    hide MaterializedAsset, DeltaAsset, CheckpointAsset;
  }

  /** A delta's asset takes the book with that level set, or keeps its book and is warned. No other asset changes. */
  lemma DeltaIsTaken(s: State, e: BookEvent)
    requires e.kind == Delta
    ensures var flushed, s' := BeforeRecord(s, BookRecord(e)), ApplyRecord(s, BookRecord(e));
            var st, p := AssetOrNew(flushed.assets, e.asset), e.provenance;
            && s'.assets == flushed.assets[e.asset := s'.assets[e.asset]] && e.asset in s'.assets
            && Took(st, s'.assets[e.asset],
                    ApplyDelta(st.book, e.side, e.price, e.size,
                               if p.sequence.Some? then p.sequence.value else 0, p.recvTimestampUs),
                    false, p.recvTimestampUs, p.exchangeTimestampUs)
            && s'.metadata == flushed.metadata && s'.activeAssets == flushed.activeAssets
  {
    hide ApplyDelta, CheckIntegrity, MaterializedAsset;
    var flushed := BeforeRecord(s, BookRecord(e));
    IntegrityMeansUncrossed(DeltaAsset(AssetOrNew(flushed.assets, e.asset), e).book);
  }

  /** A tailed checkpoint seeds its asset unless that has taken a snapshot already; then it changes nothing. */
  lemma CheckpointSeedsIff(s: State, c: BookCheckpoint)
    ensures var flushed, s' := BeforeRecord(s, CheckpointRecord(c)), ApplyRecord(s, CheckpointRecord(c));
            if c.asset in flushed.assets && flushed.assets[c.asset].initializedFromSnapshot then s' == flushed
            else
              && s' == flushed.(assets := flushed.assets[c.asset := s'.assets[c.asset]])
              && c.asset in s'.assets
              && Took(AssetOrNew(flushed.assets, c.asset), s'.assets[c.asset],
                      ApplySnapshot(c.bids, c.asks, 0, c.checkpointTimestampUs), true, c.provenance.recvTimestampUs,
                      c.provenance.exchangeTimestampUs)
  {
    hide ApplySnapshot, CheckIntegrity, MaterializedAsset;
    var flushed := BeforeRecord(s, CheckpointRecord(c));
    IntegrityMeansUncrossed(CheckpointAsset(AssetOrNew(flushed.assets, c.asset), c).book);
  }

  /** A trade or a validation changes nothing but the pending group; an ingest event leaves its own warning besides. */
  lemma OthersOnlyWarn(s: State, r: PersistedRecord)
    requires r.TradeRecord? || r.ValidationRecord? || r.IngestRecord?
    ensures var flushed, s' := BeforeRecord(s, r), ApplyRecord(s, r);
            if !r.IngestRecord? then s' == flushed
            else
              var i := r.ingest;
              var warning := Some(ContinuityWarning(FromIngest(i.kind), i.provenance.recvTimestampUs,
                                                    i.provenance.exchangeTimestampUs));
              if i.asset.None? then s'.assets == flushed.assets && s'.metadata.latestGlobalWarning == warning
              else
                && s'.assets == flushed.assets[i.asset.value := AssetOrNew(flushed.assets, i.asset.value).(
                                  latestWarning := warning)]
                && s'.metadata.latestGlobalWarning == s.metadata.latestGlobalWarning
  {
    hide MaterializedAsset;
  }
}
