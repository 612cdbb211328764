/**
 The live read model: per-asset books, snapshot groups held back until they are complete, and the
 published view that is refreshed asset by asset.
 */
module LiveState {
  import opened Types
  import opened OrderBook

  datatype SnapshotGroupKey = SnapshotGroupKey(asset: Asset, recvTimestampUs: U64, exchangeTimestampUs: U64,
                                               sourceEventId: Option<string>)

  datatype PendingSnapshot = PendingSnapshot(
    key: SnapshotGroupKey,
    bids: seq<Level>,
    asks: seq<Level>,
    sequence: U64,
    lastRecvTimestampUs: U64)

  datatype WarningKind = BookApplyError | CrossedBookSeen | FromIngest(kind: IngestEventKind)

  datatype ContinuityWarning = ContinuityWarning(kind: WarningKind, recvTimestampUs: U64, exchangeTimestampUs: U64)

  datatype AssetState = AssetState(
    book: Book,
    initializedFromSnapshot: bool,
    lastRecvTimestampUs: Option<U64>,
    lastExchangeTimestampUs: Option<U64>,
    latestWarning: Option<ContinuityWarning>)

  const NEW_ASSET := AssetState(EMPTY_BOOK, false, None, None, None)

  datatype SessionStatus = Starting | Connected | Reconnecting

  datatype Metadata = Metadata(
    sessionStatus: SessionStatus,
    currentSessionId: Option<string>,
    lastRotationUs: Option<U64>,
    latestGlobalWarning: Option<ContinuityWarning>,
    hydrated: bool)

  /** The meaning of the live state; at most one snapshot group is ever pending. */
  datatype State = State(
    assets: map<Asset, AssetState>,
    pending: Option<PendingSnapshot>,
    activeAssets: seq<Asset>,
    metadata: Metadata)

  function AssetOrNew(assets: map<Asset, AssetState>, a: Asset): AssetState {
    if a in assets then assets[a] else NEW_ASSET
  }

  function KeyOf(e: BookEvent): SnapshotGroupKey {
    SnapshotGroupKey(e.asset, e.provenance.recvTimestampUs, e.provenance.exchangeTimestampUs,
                     e.provenance.sourceEventId)
  }

  predicate IsSnapshot(r: PersistedRecord) {
    r.BookRecord? && r.event.kind == Snapshot
  }

  // ---------------------------------------------------------------------------------------------
  // The meaning of each step
  // ---------------------------------------------------------------------------------------------

  function OrZero(t: Option<U64>): U64 {
    if t.Some? then t.value else 0
  }

  /** Notes a crossed book as a warning. */
  function Checked(st: AssetState): AssetState {
    if CheckIntegrity(st.book).Ok? then st
    else st.(latestWarning := Some(ContinuityWarning(CrossedBookSeen, OrZero(st.lastRecvTimestampUs),
                                                     OrZero(st.lastExchangeTimestampUs))))
  }

  function GroupBook(g: PendingSnapshot): Result<Book, BookError> {
    ApplySnapshot(g.bids, g.asks, g.sequence, g.lastRecvTimestampUs)
  }

  function MaterializedAsset(st: AssetState, g: PendingSnapshot): AssetState {
    var r := GroupBook(g);
    if r.Err?
    then st.(latestWarning := Some(ContinuityWarning(BookApplyError, g.lastRecvTimestampUs, g.key.exchangeTimestampUs)))
    else Checked(st.(book := r.value, initializedFromSnapshot := true,
                     lastRecvTimestampUs := Some(g.lastRecvTimestampUs),
                     lastExchangeTimestampUs := Some(g.key.exchangeTimestampUs)))
  }

  /** Applies the pending group, if any. */
  function Materialize(s: State): State {
    if s.pending.None? then s
    else
      var g := s.pending.value;
      s.(assets := s.assets[g.key.asset := MaterializedAsset(AssetOrNew(s.assets, g.key.asset), g)], pending := None)
  }

  /** Every record flushes the pending group except another event of that same group. */
  predicate Flushes(s: State, r: PersistedRecord) {
    s.pending.Some? && !(IsSnapshot(r) && KeyOf(r.event) == s.pending.value.key)
  }

  function BeforeRecord(s: State, r: PersistedRecord): State {
    if Flushes(s, r) then Materialize(s) else s
  }

  function Extended(g: PendingSnapshot, e: BookEvent): PendingSnapshot {
    var level := Level(e.price, e.size);
    g.(bids := if e.side == Bid then g.bids + [level] else g.bids,
       asks := if e.side == Ask then g.asks + [level] else g.asks,
       sequence := SequenceOf(e.provenance),
       lastRecvTimestampUs := e.provenance.recvTimestampUs)
  }

  function NewGroup(e: BookEvent): PendingSnapshot {
    PendingSnapshot(KeyOf(e), [], [], 0, e.provenance.recvTimestampUs)
  }

  function RecordSnapshot(s: State, e: BookEvent): State {
    var g := if s.pending.Some? then s.pending.value else NewGroup(e);
    s.(pending := Some(Extended(g, e)),
       assets := s.assets[e.asset := AssetOrNew(s.assets, e.asset).(
         lastRecvTimestampUs := Some(e.provenance.recvTimestampUs),
         lastExchangeTimestampUs := Some(e.provenance.exchangeTimestampUs))])
  }

  function DeltaAsset(st: AssetState, e: BookEvent): AssetState {
    var r := ApplyDelta(st.book, e.side, e.price, e.size, SequenceOf(e.provenance), e.provenance.recvTimestampUs);
    if r.Err?
    then st.(latestWarning := Some(ContinuityWarning(BookApplyError, e.provenance.recvTimestampUs,
                                                     e.provenance.exchangeTimestampUs)))
    else Checked(st.(book := r.value, lastRecvTimestampUs := Some(e.provenance.recvTimestampUs),
                     lastExchangeTimestampUs := Some(e.provenance.exchangeTimestampUs)))
  }

  function RecordDelta(s: State, e: BookEvent): State {
    s.(assets := s.assets[e.asset := DeltaAsset(AssetOrNew(s.assets, e.asset), e)])
  }

  function SessionAfter(m: Metadata, i: IngestEvent): Metadata {
    match i.kind
    case ReconnectStart => m.(sessionStatus := Reconnecting)
    case ReconnectSuccess => m.(sessionStatus := Connected, currentSessionId := i.provenance.sourceSessionId)
    case _ => m
  }

  function RecordIngest(s: State, i: IngestEvent): State {
    var warning := Some(ContinuityWarning(FromIngest(i.kind), i.provenance.recvTimestampUs,
                                          i.provenance.exchangeTimestampUs));
    var m := SessionAfter(s.metadata, i);
    if i.asset.Some?
    then s.(metadata := m,
            assets := s.assets[i.asset.value := AssetOrNew(s.assets, i.asset.value).(latestWarning := warning)])
    else s.(metadata := m.(latestGlobalWarning := warning))
  }

  function CheckpointAsset(st: AssetState, c: BookCheckpoint): AssetState {
    var r := ApplySnapshot(c.bids, c.asks, 0, c.checkpointTimestampUs);
    if r.Err?
    then st.(latestWarning := Some(ContinuityWarning(BookApplyError, c.provenance.recvTimestampUs,
                                                     c.provenance.exchangeTimestampUs)))
    else Checked(st.(book := r.value, initializedFromSnapshot := true,
                     lastRecvTimestampUs := Some(c.provenance.recvTimestampUs),
                     lastExchangeTimestampUs := Some(c.provenance.exchangeTimestampUs)))
  }

  function HydrateCheckpoint(s: State, c: BookCheckpoint): State {
    s.(assets := s.assets[c.asset := CheckpointAsset(AssetOrNew(s.assets, c.asset), c)])
  }

  /** A tailed checkpoint seeds only an asset that has no materialized book. */
  predicate Seeds(s: State, c: BookCheckpoint) {
    c.asset in s.assets ==> !s.assets[c.asset].initializedFromSnapshot
  }

  function ApplyRecord(s: State, r: PersistedRecord): State {
    var flushed := BeforeRecord(s, r);
    match r
    case BookRecord(e) => if e.kind == Snapshot then RecordSnapshot(flushed, e) else RecordDelta(flushed, e)
    case IngestRecord(i) => RecordIngest(flushed, i)
    case CheckpointRecord(c) => if Seeds(flushed, c) then HydrateCheckpoint(flushed, c) else flushed
    case TradeRecord(_) => flushed
    case ValidationRecord(_) => flushed
  }

  /** The asset whose flushed group was accepted, if any. */
  function FlushedAssets(s: State, r: PersistedRecord): set<Asset> {
    if Flushes(s, r) && GroupBook(s.pending.value).Ok? then {s.pending.value.key.asset} else {}
  }

  /** The assets the record itself marks as changed. */
  function TouchedAssets(s: State, r: PersistedRecord): set<Asset> {
    match r
    case BookRecord(e) => {e.asset}
    case IngestRecord(i) => if i.asset.Some? then {i.asset.value} else {}
    case CheckpointRecord(c) => if Seeds(BeforeRecord(s, r), c) then {c.asset} else {}
    case TradeRecord(_) => {}
    case ValidationRecord(_) => {}
  }

  function ChangedAssets(s: State, r: PersistedRecord): set<Asset> {
    FlushedAssets(s, r) + TouchedAssets(s, r)
  }

  function SetActiveAssets(s: State, assets: seq<Asset>): State {
    s.(activeAssets := assets,
       assets := Retained(s.assets, assets),
       pending := if s.pending.Some? && s.pending.value.key.asset in assets then s.pending else None)
  }

  /** Moves the state of each listed asset out of the old map, or makes a new one if it is not there any more. */
  function Retained(assets: map<Asset, AssetState>, active: seq<Asset>): map<Asset, AssetState> {
    if |active| == 0 then map[]
    else
      var init, a := active[..|active| - 1], active[|active| - 1];
      Retained(assets, init)[a := if a in assets && a !in init then assets[a] else NEW_ASSET]
  }

  /** Exactly the listed assets remain, each with its old state if it is listed once and afresh otherwise. */
  lemma {:induction false} RetainedIs(assets: map<Asset, AssetState>, active: seq<Asset>, a: Asset)
    ensures a in Retained(assets, active) <==> a in active
    ensures a in active ==>
              Retained(assets, active)[a] == if a in assets && multiset(active)[a] == 1 then assets[a] else NEW_ASSET
  {
    if |active| > 0 {
      var init, last := active[..|active| - 1], active[|active| - 1];
      RetainedIs(assets, init, a);
      assert active == init + [last];
      assert a in multiset(init) <==> a in init;
    }
  }

  /** Takes the state of each listed asset out of the old map, or makes a new one. */
  method RetainListed(assets: map<Asset, AssetState>, active: seq<Asset>) returns (retained: map<Asset, AssetState>)
    ensures retained == Retained(assets, active)
  {
    var left := assets;
    retained := map[];
    for i := 0 to |active|
      invariant left == assets - (set a | a in active[..i])
      invariant retained == Retained(assets, active[..i])
    {
      var a := active[i];
      assert active[..i + 1][..i] == active[..i] && active[..i + 1][i] == a;
      retained := retained[a := if a in left then left[a] else NEW_ASSET];
      left := left - {a};
    }
    assert active[..|active|] == active;
  }

  // ---------------------------------------------------------------------------------------------
  // The mutable live state
  // ---------------------------------------------------------------------------------------------

  class LiveState {
    var assets: map<Asset, AssetState>
    var pendingSnapshots: map<Asset, PendingSnapshot>
    var activeAssets: seq<Asset>
    var metadata: Metadata

    /** The representation invariant: at most one pending group, filed under its own, known asset. */
    ghost predicate Valid()
      reads this
    {
      && (forall a <- pendingSnapshots, b <- pendingSnapshots :: a == b)
      && (forall a <- pendingSnapshots :: pendingSnapshots[a].key.asset == a && a in assets)
    }

    ghost function Pending(): Option<PendingSnapshot>
      reads this
    {
      if pendingSnapshots == map[] then None
      else var a :| a in pendingSnapshots; Some(pendingSnapshots[a])
    }

    ghost function Value(): State
      reads this
    {
      State(assets, Pending(), activeAssets, metadata)
    }

    constructor ()
      ensures Valid()
      ensures Value() == State(map[], None, [], Metadata(Starting, None, None, None, false))
    {
      assets, pendingSnapshots, activeAssets := map[], map[], [];
      metadata := Metadata(Starting, None, None, None, false);
    }

    lemma PendingIs(a: Asset)
      requires Valid() && a in pendingSnapshots
      ensures Pending() == Some(pendingSnapshots[a])
    {
    }

    method SetActive(newActive: seq<Asset>)
      requires Valid()
      modifies this
      ensures Valid() && Value() == SetActiveAssets(old(Value()), newActive)
    {
      ghost var was, before := Value(), pendingSnapshots;
      if b :| b in before {
        PendingIs(b);
        assert before.Keys == {b} && was.pending == Some(before[b]);
      }
      activeAssets := newActive;
      assets := RetainListed(assets, newActive);
      pendingSnapshots := map a | a in pendingSnapshots && a in newActive :: pendingSnapshots[a];
      if b :| b in before {
        RetainedIs(old(assets), newActive, b);
        assert pendingSnapshots == if b in newActive then before else map[];
        if b in newActive {
          PendingIs(b);
        }
      } else {
        assert before == map[] && pendingSnapshots == map[];
      }
      assert Value() == SetActiveAssets(was, newActive);
    }

    /** Applies one asset's pending group; reports whether the book accepted it. */
    method MaterializePendingForAsset(a: Asset) returns (accepted: bool)
      requires Valid()
      modifies this
      ensures Valid()
      ensures a in old(pendingSnapshots) ==>
                Value() == Materialize(old(Value())) && accepted == GroupBook(old(pendingSnapshots[a])).Ok?
      ensures a !in old(pendingSnapshots) ==> !accepted && Value() == old(Value())
      ensures pendingSnapshots == old(pendingSnapshots) - {a}
      ensures old(assets).Keys <= assets.Keys
    {
      if a !in pendingSnapshots {
        return false;
      }
      PendingIs(a);
      var g := pendingSnapshots[a];
      pendingSnapshots := pendingSnapshots - {a};
      var r := GroupBook(g);
      accepted := r.Ok?;
      assets := assets[a := MaterializedAsset(AssetOrNew(assets, a), g)];
    }

    /** Applies every pending group that the record does not continue, in any order. */
    method MaterializePendingBeforeRecord(r: PersistedRecord) returns (materialized: set<Asset>)
      requires Valid()
      modifies this
      ensures Valid() && Value() == BeforeRecord(old(Value()), r)
      ensures materialized == FlushedAssets(old(Value()), r)
    {
      var stale := set a | a in pendingSnapshots && !(IsSnapshot(r) && pendingSnapshots[a].key == KeyOf(r.event));
      materialized := {};
      if a :| a in pendingSnapshots {
        PendingIs(a);
        assert stale == if Flushes(Value(), r) then {a} else {};
      }
      ghost var before := Value();
      while stale != {}
        invariant Valid() && stale <= pendingSnapshots.Keys
        invariant Value() == if stale == {} then BeforeRecord(before, r) else before
        invariant materialized == if stale == {} then FlushedAssets(before, r) else {}
        invariant stale != {} ==> Flushes(before, r)
        decreases stale
      {
        var a :| a in stale;
        PendingIs(a);
        var accepted := MaterializePendingForAsset(a);
        if accepted {
          materialized := materialized + {a};
        }
        stale := stale - {a};
      }
    }

    /**
     Adds an event to its group. Called after stale groups were applied, so a pending group of the
     event's asset always has the event's own key: the branch that would apply it first is dead.
     */
    method RecordSnapshotEvent(e: BookEvent)
      requires Valid()
      requires Pending().Some? ==> Pending().value.key == KeyOf(e)
      modifies this
      ensures Valid() && Value() == RecordSnapshot(old(Value()), e)
    {
      if a :| a in pendingSnapshots {
        PendingIs(a);
      }
      var g := if e.asset in pendingSnapshots then pendingSnapshots[e.asset] else NewGroup(e);
      if g.key != KeyOf(e) {
        assert false;
      }
      pendingSnapshots := pendingSnapshots[e.asset := Extended(g, e)];
      assets := assets[e.asset := AssetOrNew(assets, e.asset).(
        lastRecvTimestampUs := Some(e.provenance.recvTimestampUs),
        lastExchangeTimestampUs := Some(e.provenance.exchangeTimestampUs))];
      PendingIs(e.asset);
    }

    /** Applies a record and reports which assets changed. */
    method Apply(r: PersistedRecord) returns (changed: set<Asset>, shouldPublish: bool)
      requires Valid()
      modifies this
      ensures Valid() && Value() == ApplyRecord(old(Value()), r)
      ensures changed == ChangedAssets(old(Value()), r)
      ensures shouldPublish <==> changed != {} || r.IngestRecord?
    {
      changed := MaterializePendingBeforeRecord(r);
      match r {
        case BookRecord(e) =>
          match e.kind {
            case Snapshot => RecordSnapshotEvent(e);
            case Delta => assets := assets[e.asset := DeltaAsset(AssetOrNew(assets, e.asset), e)];
          }
          changed := changed + {e.asset};
        case IngestRecord(i) =>
          RecordIngestEvent(i);
          if i.asset.Some? {
            changed := changed + {i.asset.value};
          }
        case CheckpointRecord(c) =>
          if c.asset !in assets || !assets[c.asset].initializedFromSnapshot {
            SeedFromCheckpoint(c);
            changed := changed + {c.asset};
          }
        case TradeRecord(_) =>
        case ValidationRecord(_) =>
      }
      shouldPublish := changed != {} || r.IngestRecord?;
    }

    method RecordIngestEvent(i: IngestEvent)
      requires Valid()
      modifies this
      ensures Valid() && Value() == RecordIngest(old(Value()), i)
    {
      var warning := Some(ContinuityWarning(FromIngest(i.kind), i.provenance.recvTimestampUs,
                                            i.provenance.exchangeTimestampUs));
      match i.kind {
        case ReconnectStart =>
          metadata := metadata.(sessionStatus := Reconnecting);
        case ReconnectSuccess =>
          metadata := metadata.(sessionStatus := Connected, currentSessionId := i.provenance.sourceSessionId);
        case _ =>
      }
      if i.asset.Some? {
        assets := assets[i.asset.value := AssetOrNew(assets, i.asset.value).(latestWarning := warning)];
      } else {
        metadata := metadata.(latestGlobalWarning := warning);
      }
    }

    method SeedFromCheckpoint(c: BookCheckpoint)
      requires Valid()
      modifies this
      ensures Valid() && Value() == HydrateCheckpoint(old(Value()), c)
    {
      assets := assets[c.asset := CheckpointAsset(AssetOrNew(assets, c.asset), c)];
    }
  }

  // ---------------------------------------------------------------------------------------------
  // What single steps leave alone
  // ---------------------------------------------------------------------------------------------

  /**
   An ingest event changes no book, no initialized flag and no pending group. It leaves exactly one warning,
   with its asset or globally, and only a reconnect moves the session.
   */
  lemma IngestChangesNoBook(s: State, i: IngestEvent, a: Asset)
    ensures var s' := RecordIngest(s, i);
            var before, after := AssetOrNew(s.assets, a), AssetOrNew(s'.assets, a);
            && after.book == before.book && after.initializedFromSnapshot == before.initializedFromSnapshot
            && s'.pending == s.pending
            && (after.latestWarning != before.latestWarning ==> i.asset == Some(a))
            && (s'.metadata.latestGlobalWarning != s.metadata.latestGlobalWarning ==> i.asset.None?)
            && (i.asset == Some(a)
                ==> after.latestWarning.Some? && after.latestWarning.value.kind == FromIngest(i.kind))
            && (i.asset.None? ==>
                  var w := s'.metadata.latestGlobalWarning; w.Some? && w.value.kind == FromIngest(i.kind))
            && s'.metadata.sessionStatus == (if i.kind == ReconnectStart then Reconnecting
                                             else if i.kind == ReconnectSuccess then Connected
                                             else s.metadata.sessionStatus)
            && s'.metadata.currentSessionId == (if i.kind == ReconnectSuccess then i.provenance.sourceSessionId
                                                else s.metadata.currentSessionId)
  {
  }

  /**
   A checkpoint whose totals fit replaces the asset's book by its last entry for each price and marks the
   asset initialized; any other leaves book and flag alone and a warning behind. No other asset changes.
   */
  lemma CheckpointReplacesOrWarns(s: State, c: BookCheckpoint, a: Asset)
    ensures var before, after := AssetOrNew(s.assets, a), AssetOrNew(HydrateCheckpoint(s, c).assets, a);
            if a != c.asset then after == before
            else if PrefixesFit(c.bids) && PrefixesFit(c.asks) then
              && after.book.bids == LastWins(c.bids) && after.book.asks == LastWins(c.asks)
              && after.initializedFromSnapshot
              && after.lastRecvTimestampUs == Some(c.provenance.recvTimestampUs)
              && after.lastExchangeTimestampUs == Some(c.provenance.exchangeTimestampUs)
              && after.latestWarning == if !Crossed(after.book) then before.latestWarning
                                        else Some(ContinuityWarning(CrossedBookSeen, c.provenance.recvTimestampUs,
                                                                    c.provenance.exchangeTimestampUs))
            else
              && after.book == before.book && after.initializedFromSnapshot == before.initializedFromSnapshot
              && after.latestWarning == Some(ContinuityWarning(BookApplyError, c.provenance.recvTimestampUs,
                                                               c.provenance.exchangeTimestampUs))
  {
    hide PrefixesFit, LastWins, CheckIntegrity;
    IntegrityMeansUncrossed(CheckpointAsset(AssetOrNew(s.assets, c.asset), c).book);
  }
}
