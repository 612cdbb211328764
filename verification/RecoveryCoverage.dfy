/**
 Which records share a partition, and which of them recovery may replace: exactly those whose whole partition
 lies inside the log.
 */
module RecoveryCoverage {
  import opened Types
  import opened Bags
  import opened Digits
  import opened StorageKeys
  import opened RecoveryProtocol
  import opened ParquetWriter

  predicate Plausible(ts: U64) {
    1_000_000_000_000_000 <= ts <= 10_000_000_000_000_000
  }

  lemma DecInjective(m: nat, n: nat)
    requires Dec(m) == Dec(n)
    ensures m == n
  {
    ValueOfDec(m);
    ValueOfDec(n);
  }

  lemma DecIsNoMarker(n: nat)
    ensures Dec(n) != INVALID_TIMESTAMP
  {
    ValueOfDec(n);
    assert IsDigit(Dec(n)[0]);
  }

  /** Plausible timestamps share a partition if and only if they lie in one hour; all others share one of their own. */
  lemma SamePartitionIff(a: U64, b: U64)
    ensures HourKey(a) == HourKey(b) <==> if Plausible(a) && Plausible(b) then a / 3_600_000_000 == b / 3_600_000_000
                                           else !Plausible(a) && !Plausible(b)
  {
    DecIsNoMarker(a / HOUR_US);
    DecIsNoMarker(b / HOUR_US);
    if HourKey(a) == HourKey(b) && Plausible(a) && Plausible(b) {
      DecInjective(a / HOUR_US, b / HOUR_US);
    }
  }

  /** The record belongs to this asset; an ingest event of no asset in particular to the one called `global`. */
  predicate Concerns(r: PersistedRecord, a: Asset) {
    || (r.BookRecord? && r.event.asset == a) || (r.TradeRecord? && r.trade.asset == a)
    || (r.IngestRecord? && r.ingest.asset == Some(a)) || (r.IngestRecord? && r.ingest.asset == None && a == "global")
    || (r.CheckpointRecord? && r.checkpoint.asset == a) || (r.ValidationRecord? && r.validation.asset == a)
  }

  /** When the record counts: for events the receive time, for the others their own timestamp. */
  predicate CountsAt(r: PersistedRecord, ts: U64) {
    || (r.BookRecord? && r.event.provenance.recvTimestampUs == ts)
    || (r.TradeRecord? && r.trade.provenance.recvTimestampUs == ts)
    || (r.IngestRecord? && r.ingest.provenance.recvTimestampUs == ts)
    || (r.CheckpointRecord? && r.checkpoint.checkpointTimestampUs == ts)
    || (r.ValidationRecord? && r.validation.persistedAtUs == ts)
  }

  /** The dataset that holds records of this kind. */
  predicate HeldBy(r: PersistedRecord, dataset: string) {
    || (r.BookRecord? && dataset == "book_events") || (r.TradeRecord? && dataset == "trade_events")
    || (r.IngestRecord? && dataset == "ingest_events") || (r.CheckpointRecord? && dataset == "book_checkpoints")
    || (r.ValidationRecord? && dataset == "replay_validations")
  }

  lemma PartitionOf(r: PersistedRecord)
    ensures HeldBy(r, r.DatasetName()) && Concerns(r, r.AssetPartition()) && CountsAt(r, r.PartitionTimestampUs())
  {
  }

  /** Two records share a partition if and only if they share dataset, asset and hour. */
  lemma RecordsTogetherIff(x: PersistedRecord, y: PersistedRecord, a: Asset, b: Asset, s: U64, t: U64)
    requires Concerns(x, a) && Concerns(y, b) && CountsAt(x, s) && CountsAt(y, t)
    ensures KeyFor(x) == KeyFor(y) <==>
              && (exists dataset :: HeldBy(x, dataset) && HeldBy(y, dataset))
              && a == b
              && if Plausible(s) && Plausible(t) then s / 3_600_000_000 == t / 3_600_000_000
                 else !Plausible(s) && !Plausible(t)
  {
    hide HourKey, AssetKey, Plausible;
    PartitionOf(x);
    PartitionOf(y);
    SamePartitionIff(s, t);
    assert x.PartitionTimestampUs() == s && y.PartitionTimestampUs() == t;
    assert x.AssetPartition() == a && y.AssetPartition() == b;
    if AssetKey(a) == AssetKey(b) {
      AssetKeyInjective(a, b);
    }
    DatasetsAgree(x, y);
  }

  lemma DatasetsAgree(x: PersistedRecord, y: PersistedRecord)
    ensures x.DatasetName() == y.DatasetName() <==> exists dataset :: HeldBy(x, dataset) && HeldBy(y, dataset)
  {
    PartitionOf(x);
    PartitionOf(y);
    forall dataset | HeldBy(x, dataset) ensures dataset == x.DatasetName() {
    }
    forall dataset | HeldBy(y, dataset) ensures dataset == y.DatasetName() {
    }
  }

  /** Everything the partition of `ts` can hold was received strictly inside the coverage. */
  ghost predicate PartitionCovered(c: Coverage, ts: U64) {
    forall t: U64 | HourKey(t) == HourKey(ts) :: c.startUs < t < c.endUs
  }

  lemma HourBounds(ts: U64)
    ensures var hourStart := ts / HOUR_US * HOUR_US;
            hourStart <= ts < hourStart + HOUR_US && hourStart / HOUR_US == ts / HOUR_US
  {
  }

  lemma InHour(ts: U64, t: U64)
    ensures t / HOUR_US == ts / HOUR_US <==> ts / HOUR_US * HOUR_US <= t < ts / HOUR_US * HOUR_US + HOUR_US
  {
    HourBounds(t);
    HourBounds(ts);
  }

  lemma CompleteHourIsCovered(c: Coverage, ts: U64)
    requires Constructed(c) && ContainsCompleteHour(c, ts)
    ensures Plausible(ts) && PartitionCovered(c, ts)
  {
    hide HourKey;
    HourBounds(ts);
    forall t: U64 | HourKey(t) == HourKey(ts) ensures c.startUs < t < c.endUs {
      SamePartitionIff(t, ts);
      InHour(ts, t);
    }
  }

  lemma QuarantineUncovered(c: Coverage, ts: U64)
    requires !Plausible(ts)
    ensures !PartitionCovered(c, ts)
  {
    hide HourKey;
    SamePartitionIff(0, ts);
    assert HourKey(0) == HourKey(ts);
  }

  lemma CoveredHourIsComplete(c: Coverage, ts: U64)
    requires Constructed(c) && PartitionCovered(c, ts)
    ensures Plausible(ts) && ContainsCompleteHour(c, ts)
  {
    hide HourKey;
    HourBounds(ts);
    if !Plausible(ts) {
      QuarantineUncovered(c, ts);
    }
    var hourStart: U64 := ts / HOUR_US * HOUR_US;
    EdgesCovered(c, ts, hourStart);
  }

  /** The first and the last plausible moment of the hour are covered. */
  lemma EdgesCovered(c: Coverage, ts: U64, hourStart: U64)
    requires Constructed(c) && PartitionCovered(c, ts) && Plausible(ts) && hourStart == ts / HOUR_US * HOUR_US
    ensures c.startUs < hourStart && hourStart + HOUR_US <= c.endUs
  {
    hide HourKey;
    HourBounds(ts);
    var first: U64 := if hourStart < MIN_PLAUSIBLE_PARTITION_US then MIN_PLAUSIBLE_PARTITION_US else hourStart;
    var last: U64 := if hourStart + HOUR_US - 1 > MAX_PLAUSIBLE_PARTITION_US then MAX_PLAUSIBLE_PARTITION_US
                     else hourStart + HOUR_US - 1;
    InHour(ts, first);
    InHour(ts, last);
    SamePartitionIff(first, ts);
    SamePartitionIff(last, ts);
    assert c.startUs < first && last < c.endUs;
  }

  /**
   A record is recoverable if and only if it is of a dataset partitioned by receive time and everything its
   partition can hold was received strictly inside the log's coverage: what recovery replaces, it has.
   */
  lemma RecoverableIff(r: PersistedRecord, c: Coverage)
    requires Constructed(c)
    ensures Recoverable(r, c) <==>
              (r.BookRecord? || r.TradeRecord? || r.IngestRecord?) && PartitionCovered(c, r.PartitionTimestampUs())
  {
    hide PartitionCovered, ContainsCompleteHour, Constructed;
    var ts := r.PartitionTimestampUs();
    DecIsNoMarker(ts / HOUR_US);
    if ContainsCompleteHour(c, ts) {
      CompleteHourIsCovered(c, ts);
    }
    if PartitionCovered(c, ts) {
      CoveredHourIsComplete(c, ts);
    }
  }

  /** So any record that lies in a partition which an accepted batch replaces was received inside the coverage. */
  lemma ReplacedPartitionCovered(records: seq<PersistedRecord>, c: Coverage, k: GroupKey, x: PersistedRecord)
    requires Constructed(c) && (forall r <- records :: Recoverable(r, c)) && k in GroupsOf(records) && KeyFor(x) == k
    ensures c.startUs < x.PartitionTimestampUs() < c.endUs
  {
    hide Recoverable, Constructed, HourKey;
    GroupedMembers(records, KeyFor);
    var r := GroupsOf(records)[k][0];
    assert r in GroupsOf(records)[k];
    assert r in records && KeyFor(r) == k;
    RecoverableIff(r, c);
  }

  /** A boundary hour is refused: the log covers one microsecond of it. */
  lemma BoundaryHourRefused(r: PersistedRecord)
    requires r.PartitionTimestampUs() == 1_700_002_800_000_000
    ensures var c := Coverage(1_700_000_000_000_000, 1_700_002_800_000_001);
            Constructed(c) && !Recoverable(r, c)
  {
  }
}
