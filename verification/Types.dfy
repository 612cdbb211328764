/** Shared value types: the event and record entities that every component exchanges. */
module Types {

  datatype Option<+T> = None | Some(value: T)

  datatype Result<+T, +E> = Ok(value: T) | Err(error: E)

  const U64_LIMIT: nat := 0x1_0000_0000_0000_0000

  /** A 64-bit unsigned integer; arithmetic that may leave the range is written out where it happens. */
  type U64 = n: int | 0 <= n < 0x1_0000_0000_0000_0000

  const PRICE_SCALE: nat := 10_000

  /** A fixed-point price: ten-thousandths, 0.0000 to 1.0000 inclusive. */
  type Price = n: int | 0 <= n <= 10_000

  type Asset = string

  datatype Side = Bid | Ask

  datatype BookEventKind = Snapshot | Delta

  datatype DataSource = WebSocket | RestSnapshot | ReplayValidator | System

  datatype EventProvenance = EventProvenance(
    recvTimestampUs: U64,
    exchangeTimestampUs: U64,
    source: DataSource,
    sourceEventId: Option<string>,
    sourceSessionId: Option<string>,
    sequence: Option<U64>,
    ingestOrdinal: Option<U64>)

  /** One price level, as it appears in snapshots, checkpoints and query results. */
  datatype Level = Level(price: Price, size: U64)

  datatype BookEvent = BookEvent(
    asset: Asset,
    kind: BookEventKind,
    side: Side,
    price: Price,
    size: U64,
    provenance: EventProvenance)

  datatype IngestEventKind =
    | ReconnectStart
    | ReconnectSuccess
    | SequenceGap
    | StaleSnapshotSkip
    | SourceReset
    | BookMismatch
  {
    predicate IsContinuityReset() {
      SourceReset?
    }
  }

  datatype IngestEvent = IngestEvent(
    asset: Option<Asset>,
    kind: IngestEventKind,
    provenance: EventProvenance,
    expectedSequence: Option<U64>,
    observedSequence: Option<U64>)

  datatype BookCheckpoint = BookCheckpoint(
    asset: Asset,
    checkpointTimestampUs: U64,
    provenance: EventProvenance,
    bids: seq<Level>,
    asks: seq<Level>,
    walOffset: Option<U64>)

  datatype TradeEvent = TradeEvent(asset: Asset, price: Price, provenance: EventProvenance)

  datatype ReplayValidation = ReplayValidation(asset: Asset, matched: bool, persistedAtUs: U64)

  /** A record as it travels through the write-ahead log, the live projector and the Parquet sink. */
  datatype PersistedRecord =
    | BookRecord(event: BookEvent)
    | TradeRecord(trade: TradeEvent)
    | IngestRecord(ingest: IngestEvent)
    | CheckpointRecord(checkpoint: BookCheckpoint)
    | ValidationRecord(validation: ReplayValidation)
  {
    function DatasetName(): string {
      match this
      case BookRecord(_) => "book_events"
      case TradeRecord(_) => "trade_events"
      case IngestRecord(_) => "ingest_events"
      case CheckpointRecord(_) => "book_checkpoints"
      case ValidationRecord(_) => "replay_validations"
    }

    function AssetPartition(): Asset {
      match this
      case BookRecord(e) => e.asset
      case TradeRecord(t) => t.asset
      case IngestRecord(i) => if i.asset.Some? then i.asset.value else "global"
      case CheckpointRecord(c) => c.asset
      case ValidationRecord(v) => v.asset
    }

    function PartitionTimestampUs(): U64 {
      match this
      case BookRecord(e) => e.provenance.recvTimestampUs
      case TradeRecord(t) => t.provenance.recvTimestampUs
      case IngestRecord(i) => i.provenance.recvTimestampUs
      case CheckpointRecord(c) => c.checkpointTimestampUs
      case ValidationRecord(v) => v.persistedAtUs
    }
  }

  /** The sequence an event carries, with the default the consumers use when it is absent. */
  function SequenceOf(p: EventProvenance): U64 {
    if p.sequence.Some? then p.sequence.value else 0
  }
}
