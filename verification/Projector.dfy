/** The projector: the single writer that keeps the published view in step with the live state. */
module Projector {
  import opened Types
  import opened OrderBook
  import opened LiveState

  /** The read-only view of one asset. */
  datatype AssetReadView = AssetReadView(
    sequence: U64,
    lastUpdateUs: U64,
    bestBid: Option<Level>,
    bestAsk: Option<Level>,
    bids: seq<Level>,
    asks: seq<Level>,
    initializedFromSnapshot: bool,
    hasPendingSnapshot: bool,
    lastRecvTimestampUs: Option<U64>,
    lastExchangeTimestampUs: Option<U64>,
    latestWarning: Option<ContinuityWarning>)

  datatype PublishedState = PublishedState(metadata: Metadata, activeAssets: seq<Asset>,
                                           assets: map<Asset, AssetReadView>)

  function ViewOf(st: AssetState, hasPending: bool): AssetReadView {
    AssetReadView(st.book.sequence, st.book.lastUpdateUs, BestBid(st.book), BestAsk(st.book),
                  Descending(st.book.bids, GRID), Ascending(st.book.asks, GRID),
                  st.initializedFromSnapshot, hasPending, st.lastRecvTimestampUs, st.lastExchangeTimestampUs,
                  st.latestWarning)
  }

  predicate HasPending(s: State, a: Asset) {
    s.pending.Some? && s.pending.value.key.asset == a
  }

  /** The full rebuild of the published view. */
  function BuildPublished(s: State): PublishedState {
    PublishedState(s.metadata, s.activeAssets, map a | a in s.assets :: ViewOf(s.assets[a], HasPending(s, a)))
  }

  /** Rebuilds the views of some assets and leaves the others as they are. */
  function Refreshed(views: map<Asset, AssetReadView>, s: State, changed: set<Asset>): map<Asset, AssetReadView> {
    map a | a in views.Keys + changed && (a in changed ==> a in s.assets) ::
      if a in changed then ViewOf(s.assets[a], HasPending(s, a)) else views[a]
  }

  datatype Command =
    | Record(record: PersistedRecord)
    | SetActive(assets: seq<Asset>)
    | SetLastRotation(ts: U64)
    | Hydrate(checkpoint: BookCheckpoint)
    | SetHydrated(hydrated: bool)

  function NextState(s: State, c: Command): State {
    match c
    case Record(r) => ApplyRecord(s, r)
    case SetActive(assets) => SetActiveAssets(s, assets)
    case SetLastRotation(ts) => s.(metadata := s.metadata.(lastRotationUs := Some(ts)))
    case Hydrate(checkpoint) => HydrateCheckpoint(s, checkpoint)
    case SetHydrated(h) => s.(metadata := s.metadata.(hydrated := h))
  }

  predicate Publishes(s: State, r: PersistedRecord) {
    ChangedAssets(s, r) != {} || r.IngestRecord?
  }

  /** The incremental update of the published view. */
  function NextPublished(p: PublishedState, s: State, c: Command): PublishedState {
    var after := NextState(s, c);
    match c
    case Record(r) =>
      if !Publishes(s, r) then p
      else p.(metadata := after.metadata, assets := Refreshed(p.assets, after, ChangedAssets(s, r)))
    case SetActive(_) => p.(activeAssets := after.activeAssets, assets := BuildPublished(after).assets)
    case SetLastRotation(ts) => p.(metadata := p.metadata.(lastRotationUs := Some(ts)))
    case Hydrate(checkpoint) => p.(assets := Refreshed(p.assets, after, {checkpoint.asset}))
    case SetHydrated(h) => p.(metadata := p.metadata.(hydrated := h))
  }

  // ---------------------------------------------------------------------------------------------
  // What a view shows
  // ---------------------------------------------------------------------------------------------

  /** The list holds exactly these levels, each once, in price order. */
  ghost predicate Lists(shown: seq<Level>, levels: Levels, falling: bool) {
    && (forall l :: l in shown <==> l.price in levels && levels[l.price] == l.size)
    && forall i, j | 0 <= i < j < |shown| ::
         if falling then shown[i].price > shown[j].price else shown[i].price < shown[j].price
  }

  /** The level with the best price: the highest for bids, the lowest for asks; none if there are no levels. */
  ghost predicate IsBest(best: Option<Level>, levels: Levels, highest: bool) {
    && (best.None? <==> levels == map[])
    && (best.Some? ==>
          && best.value.price in levels && levels[best.value.price] == best.value.size
          && forall p <- levels :: if highest then p <= best.value.price else p >= best.value.price)
  }

  /**
   The full rebuild shows every known asset, and no other: all levels of its own bids falling and of its own
   asks rising, the best of each, and its sequence, times, flags and warning.
   */
  lemma RebuildShowsBooks(s: State, a: Asset)
    ensures var p := BuildPublished(s);
            && p.metadata == s.metadata && p.activeAssets == s.activeAssets && p.assets.Keys == s.assets.Keys
            && (a in s.assets ==>
                  var v, st := p.assets[a], s.assets[a];
                  && Lists(v.bids, st.book.bids, true) && Lists(v.asks, st.book.asks, false)
                  && IsBest(v.bestBid, st.book.bids, true) && IsBest(v.bestAsk, st.book.asks, false)
                  && v.sequence == st.book.sequence && v.lastUpdateUs == st.book.lastUpdateUs
                  && v.initializedFromSnapshot == st.initializedFromSnapshot
                  && (v.hasPendingSnapshot <==> s.pending.Some? && s.pending.value.key.asset == a)
                  && v.lastRecvTimestampUs == st.lastRecvTimestampUs
                  && v.lastExchangeTimestampUs == st.lastExchangeTimestampUs && v.latestWarning == st.latestWarning)
  {
    if a in s.assets {
      var b := s.assets[a].book;
      DescendingExact(b.bids, GRID);
      AscendingExact(b.asks, GRID);
      BestBidIsHighest(b);
      BestAskIsLowest(b);
      hide Descending, Ascending;
    }
  }

  // ---------------------------------------------------------------------------------------------
  // The cache is exact
  // ---------------------------------------------------------------------------------------------

  /** A pending group belongs to a known asset. */
  predicate WellFiled(s: State) {
    s.pending.Some? ==> s.pending.value.key.asset in s.assets
  }

  /** The command applies a pending group that the book rejects, without touching the group's asset. */
  predicate RejectsSilently(s: State, c: Command) {
    && c.Record? && Flushes(s, c.record)
    && GroupBook(s.pending.value).Err?
    && s.pending.value.key.asset !in TouchedAssets(s, c.record)
  }

  lemma NextStateWellFiled(s: State, c: Command)
    requires WellFiled(s)
    ensures WellFiled(NextState(s, c))
  {
    if c.SetActive? && s.pending.Some? {
      RetainedIs(s.assets, c.assets, s.pending.value.key.asset);
    }
  }

  /** Assets the record neither flushes nor touches keep their state and their pending flag. */
  lemma UntouchedAssetsKeepTheirView(s: State, r: PersistedRecord, a: Asset)
    requires a !in TouchedAssets(s, r) && !(Flushes(s, r) && s.pending.value.key.asset == a)
    ensures var after := ApplyRecord(s, r);
            && (a in after.assets <==> a in s.assets)
            && (a in s.assets ==> after.assets[a] == s.assets[a])
            && HasPending(after, a) == HasPending(s, a)
  {
  }

  lemma TouchedAssetsExist(s: State, r: PersistedRecord)
    ensures ChangedAssets(s, r) <= ApplyRecord(s, r).assets.Keys
    ensures s.assets.Keys <= ApplyRecord(s, r).assets.Keys
  {
  }

  lemma SilentRejectionDropsPending(s: State, r: PersistedRecord)
    requires RejectsSilently(s, Record(r))
    ensures !HasPending(ApplyRecord(s, r), s.pending.value.key.asset)
    ensures s.pending.value.key.asset in ApplyRecord(s, r).assets
  {
  }

  lemma MetadataMovesOnlyWhenPublished(s: State, r: PersistedRecord)
    ensures ApplyRecord(s, r).activeAssets == s.activeAssets
    ensures !Publishes(s, r) ==> ApplyRecord(s, r).metadata == s.metadata
  {
  }

  /**
   One command keeps the published view equal to a full rebuild if and only if it does not silently
   reject a pending group: then, and only then, an asset changes without being refreshed.
   */
  lemma CacheStaysExactIff(s: State, c: Command)
    requires WellFiled(s)
    ensures NextPublished(BuildPublished(s), s, c) == BuildPublished(NextState(s, c)) <==> !RejectsSilently(s, c)
  {
    hide ViewOf, ApplyRecord, Flushes, ChangedAssets, TouchedAssets, BuildPublished;
    match c {
      case Record(r) => RecordCacheExactIff(s, r);
      case Hydrate(checkpoint) => HydrateCacheExact(s, checkpoint);
      case _ => OtherCommandsCacheExact(s, c);
    }
  }

  lemma HydrateCacheExact(s: State, checkpoint: BookCheckpoint)
    ensures NextPublished(BuildPublished(s), s, Hydrate(checkpoint))
            == BuildPublished(NextState(s, Hydrate(checkpoint)))
  {
    hide ViewOf, CheckpointAsset;
    assert NextPublished(BuildPublished(s), s, Hydrate(checkpoint)).assets
           == BuildPublished(NextState(s, Hydrate(checkpoint))).assets;
  }

  lemma OtherCommandsCacheExact(s: State, c: Command)
    requires !c.Record? && !c.Hydrate?
    ensures NextPublished(BuildPublished(s), s, c) == BuildPublished(NextState(s, c))
  {
    hide ViewOf;
    if !c.SetActive? {
      assert BuildPublished(s).assets == BuildPublished(NextState(s, c)).assets;
    }
  }

  lemma RecordCacheExactIff(s: State, r: PersistedRecord)
    requires WellFiled(s)
    ensures NextPublished(BuildPublished(s), s, Record(r)) == BuildPublished(ApplyRecord(s, r))
            <==> !RejectsSilently(s, Record(r))
  {
    var p, after := BuildPublished(s), ApplyRecord(s, r);
    MetadataMovesOnlyWhenPublished(s, r);
    TouchedAssetsExist(s, r);
    if RejectsSilently(s, Record(r)) {
      SilentRejectionDropsPending(s, r);
      var a := s.pending.value.key.asset;
      assert a !in ChangedAssets(s, r);
      assert p.assets[a].hasPendingSnapshot && !BuildPublished(after).assets[a].hasPendingSnapshot;
      assert NextPublished(p, s, Record(r)).assets[a] == p.assets[a];
    } else {
      forall a | a !in ChangedAssets(s, r)
        ensures a in after.assets <==> a in s.assets
        ensures a in s.assets ==> after.assets[a] == s.assets[a] && HasPending(after, a) == HasPending(s, a)
      {
        UntouchedAssetsKeepTheirView(s, r, a);
      }
      SameViews(s, r);
    }
  }

  lemma SameViews(s: State, r: PersistedRecord)
    requires ChangedAssets(s, r) <= ApplyRecord(s, r).assets.Keys
    requires forall a | a !in ChangedAssets(s, r) ::
               && (a in ApplyRecord(s, r).assets <==> a in s.assets)
               && (a in s.assets ==>
                     ApplyRecord(s, r).assets[a] == s.assets[a] && HasPending(ApplyRecord(s, r), a) == HasPending(s, a))
    ensures Refreshed(BuildPublished(s).assets, ApplyRecord(s, r), ChangedAssets(s, r))
            == BuildPublished(ApplyRecord(s, r)).assets
    ensures ChangedAssets(s, r) == {} ==> BuildPublished(s).assets == BuildPublished(ApplyRecord(s, r)).assets
  {
    hide ViewOf, ApplyRecord, ChangedAssets, HasPending;
  }

  function RunState(s: State, commands: seq<Command>): State
    decreases commands
  {
    if |commands| == 0 then s else RunState(NextState(s, commands[0]), commands[1..])
  }

  function RunPublished(p: PublishedState, s: State, commands: seq<Command>): PublishedState
    decreases commands
  {
    if |commands| == 0 then p
    else RunPublished(NextPublished(p, s, commands[0]), NextState(s, commands[0]), commands[1..])
  }

  predicate NeverRejectsSilently(s: State, commands: seq<Command>)
    decreases commands
  {
    |commands| > 0 ==>
      !RejectsSilently(s, commands[0]) && NeverRejectsSilently(NextState(s, commands[0]), commands[1..])
  }

  /** Over any run without silent rejections, the published view is always the full rebuild. */
  lemma {:induction false} CacheExactOverRuns(s: State, commands: seq<Command>)
    requires WellFiled(s) && NeverRejectsSilently(s, commands)
    ensures RunPublished(BuildPublished(s), s, commands) == BuildPublished(RunState(s, commands))
    decreases commands
  {
    hide NextState, NextPublished, BuildPublished, RejectsSilently, WellFiled;
    if |commands| > 0 {
      CacheStaysExactIff(s, commands[0]);
      NextStateWellFiled(s, commands[0]);
      CacheExactOverRuns(NextState(s, commands[0]), commands[1..]);
    }
  }

  /** A known asset keeps its state exactly when it is listed once; a second listing starts it afresh. */
  lemma ActiveAssetKeptIff(s: State, active: seq<Asset>, a: Asset)
    requires a in s.assets && s.assets[a] != NEW_ASSET
    ensures var after := SetActiveAssets(s, active).assets;
            && (a in after <==> a in active)
            && (a in active ==> (after[a] == s.assets[a] <==> multiset(active)[a] == 1))
  {
    RetainedIs(s.assets, active, a);
  }

  // ---------------------------------------------------------------------------------------------
  // The projector task
  // ---------------------------------------------------------------------------------------------

  class Projector {
    const state: LiveState
    var published: PublishedState

    ghost predicate Valid()
      reads this, state
    {
      state.Valid()
    }

    constructor (state: LiveState)
      requires state.Valid()
      ensures this.state == state && Valid() && published == BuildPublished(state.Value())
    {
      this.state := state;
      var hasPending := state.pendingSnapshots.Keys;
      published := PublishedState(state.metadata, state.activeAssets,
                                  map a | a in state.assets :: ViewOf(state.assets[a], a in hasPending));
      PendingFlags(state);
    }

    method RefreshAssetViews(changed: set<Asset>)
      requires Valid()
      modifies this
      ensures published == old(published).(assets := Refreshed(old(published.assets), state.Value(), changed))
    {
      hide ViewOf, HasPending;
      PendingFlags(state);
      var todo, done := changed, {};
      while todo != {}
        invariant todo + done == changed && todo !! done
        invariant published == old(published).(assets := Refreshed(old(published.assets), state.Value(), done))
        decreases todo
      {
        var a :| a in todo;
        if a in state.assets {
          var view := ViewOf(state.assets[a], a in state.pendingSnapshots);
          published := published.(assets := published.assets[a := view]);
        } else {
          published := published.(assets := published.assets - {a});
        }
        todo, done := todo - {a}, done + {a};
      }
      assert done == changed;
    }

    method HandleCommand(c: Command)
      requires Valid()
      modifies this, state
      ensures Valid()
      ensures state.Value() == NextState(old(state.Value()), c)
      ensures published == NextPublished(old(published), old(state.Value()), c)
    {
      hide ViewOf, HasPending, ApplyRecord, ChangedAssets, SetActiveAssets, HydrateCheckpoint;
      match c {
        case Record(r) =>
          var changed, shouldPublish := state.Apply(r);
          if shouldPublish {
            published := published.(metadata := state.metadata);
            RefreshAssetViews(changed);
          }
        case SetActive(assets) =>
          state.SetActive(assets);
          PendingFlags(state);
          published := published.(activeAssets := state.activeAssets,
            assets := map a | a in state.assets :: ViewOf(state.assets[a], a in state.pendingSnapshots));
        case SetLastRotation(ts) =>
          state.metadata := state.metadata.(lastRotationUs := Some(ts));
          published := published.(metadata := published.metadata.(lastRotationUs := Some(ts)));
        case Hydrate(checkpoint) =>
          state.SeedFromCheckpoint(checkpoint);
          RefreshAssetViews({checkpoint.asset});
        case SetHydrated(h) =>
          state.metadata := state.metadata.(hydrated := h);
          published := published.(metadata := published.metadata.(hydrated := h));
      }
    }
  }

  lemma PendingFlags(state: LiveState)
    requires state.Valid()
    ensures forall a :: a in state.pendingSnapshots <==> HasPending(state.Value(), a)
  {
    if b :| b in state.pendingSnapshots {
      state.PendingIs(b);
    }
  }
}
