/**
 Start-up recovery: seeding the live model from checkpoints and replaying the log behind them. The
 write-ahead log is a sequence of records with their end offsets.
 */
module Hydration {
  import opened Types
  import opened OrderBook
  import opened EventOrder
  import opened Replay
  import opened ReplayTheorems
  import opened LiveState
  import opened LiveReplay
  import opened Projector

  /** One log record; the payload is absent if it cannot be decoded. */
  datatype LogEntry = LogEntry(end: U64, payload: Option<PersistedRecord>)

  datatype Wal =
    | FeedOnly
    | MissingDirectory
    | Unopenable
    | Log(origin: U64, entries: seq<LogEntry>, readFails: bool)

  /** What the historical store returned: one slot per active asset, or a failure. */
  datatype CheckpointSource = NoReader | ReadFailed | Found(checkpoints: seq<Option<BookCheckpoint>>)

  datatype HydrationResult = HydrationResult(
    checkpointsLoaded: nat,
    walRecordsReplayed: nat,
    walResumeOffset: Option<U64>,
    walEndPosition: Option<U64>,
    recoverySucceeded: bool)

  // ---------------------------------------------------------------------------------------------
  // The meaning of recovery
  // ---------------------------------------------------------------------------------------------

  datatype Seeding = Seeding(state: State, cuts: map<Asset, U64>, loaded: nat)

  /** With a log configured, a checkpoint without a log position is ignored. */
  predicate Usable(c: Option<BookCheckpoint>, configured: bool) {
    c.Some? && (configured ==> c.value.walOffset.Some?)
  }

  function SeedOne(x: Seeding, asset: Asset, c: Option<BookCheckpoint>, configured: bool): Seeding {
    if !Usable(c, configured) then x
    else Seeding(HydrateCheckpoint(x.state, c.value),
                 if c.value.walOffset.Some? then x.cuts[asset := c.value.walOffset.value] else x.cuts,
                 x.loaded + 1)
  }

  /** The first `k` active assets, each with its checkpoint. */
  function SeedAll(s: State, active: seq<Asset>, found: seq<Option<BookCheckpoint>>, configured: bool,
                   k: nat): (x: Seeding)
    requires k <= |active| && k <= |found|
    ensures forall a <- x.cuts :: a in active
  {
    if k == 0 then Seeding(s, map[], 0)
    else SeedOne(SeedAll(s, active, found, configured, k - 1), active[k - 1], found[k - 1], configured)
  }

  function Min(x: int, y: int): int {
    if x < y then x else y
  }

  /** The smallest cut, provided every active asset has one. */
  function LowestCut(active: seq<Asset>, cuts: map<Asset, U64>): (r: Option<U64>)
    ensures r.Some? <==> |active| > 0 && forall a <- active :: a in cuts
    ensures r.Some? ==> (exists a <- active :: cuts[a] == r.value) && forall a <- active :: r.value <= cuts[a]
  {
    if |active| == 0 then None
    else
      var n := |active| - 1;
      var rest := LowestCut(active[..n], cuts);
      if active[n] !in cuts then None
      else if n == 0 then Some(cuts[active[n]])
      else if rest.None? then None
      else Some(Min(rest.value, cuts[active[n]]))
  }

  predicate Skipped(e: LogEntry, from: Option<U64>) {
    from.Some? && e.end <= from.value
  }

  predicate Applies(e: LogEntry, from: Option<U64>, cuts: map<Asset, U64>) {
    && !Skipped(e, from) && e.payload.Some?
    && (e.payload.value.AssetPartition() in cuts ==> e.end > cuts[e.payload.value.AssetPartition()])
  }

  /** The records that are applied, in log order. */
  function Applied(entries: seq<LogEntry>, from: Option<U64>, cuts: map<Asset, U64>): seq<PersistedRecord> {
    if |entries| == 0 then []
    else
      var e := entries[|entries| - 1];
      Applied(entries[..|entries| - 1], from, cuts) + if Applies(e, from, cuts) then [e.payload.value] else []
  }

  /** The first entry that is neither skipped nor decodable: replay stops there. */
  function Stop(entries: seq<LogEntry>, from: Option<U64>, i: nat): (stop: nat)
    requires i <= |entries|
    ensures i <= stop <= |entries|
    ensures forall j | i <= j < stop :: Skipped(entries[j], from) || entries[j].payload.Some?
    ensures stop < |entries| ==> !Skipped(entries[stop], from) && entries[stop].payload.None?
    decreases |entries| - i
  {
    if i == |entries| || (!Skipped(entries[i], from) && entries[i].payload.None?) then i else Stop(entries, from, i + 1)
  }

  /** Where a reader stands after `n` entries of a log that starts at `origin`. */
  function Position(origin: U64, entries: seq<LogEntry>, n: nat): U64
    requires n <= |entries|
  {
    if n == 0 then origin else entries[n - 1].end
  }

  /** Where replay stopped reading: behind the undecodable entry, or at the end of the log. */
  function EndPosition(origin: U64, entries: seq<LogEntry>, from: Option<U64>): U64 {
    Position(origin, entries, Min(Stop(entries, from, 0) + 1, |entries|))
  }

  function SetReady(s: State, ready: bool): State {
    s.(metadata := s.metadata.(hydrated := ready))
  }

  function SeedFrom(s: State, source: CheckpointSource, wal: Wal, active: seq<Asset>): Seeding {
    var start := if wal.FeedOnly? then s else SetReady(s, false);
    if source.Found? then SeedAll(start, active, source.checkpoints, !wal.FeedOnly?,
                                  Min(|active|, |source.checkpoints|))
    else Seeding(start, map[], 0)
  }

  function Tail(x: Seeding, wal: Wal, active: seq<Asset>): seq<PersistedRecord> {
    if !wal.Log? then []
    else
      var from := LowestCut(active, x.cuts);
      Applied(wal.entries[..Stop(wal.entries, from, 0)], from, x.cuts)
  }

  predicate LogReplayed(x: Seeding, wal: Wal, active: seq<Asset>) {
    match wal
    case FeedOnly => true
    case MissingDirectory => false
    case Unopenable => false
    case Log(_, entries, readFails) => Stop(entries, LowestCut(active, x.cuts), 0) == |entries| && !readFails
  }

  /** State and report after recovery. */
  function Recovered(s: State, source: CheckpointSource, wal: Wal, active: seq<Asset>): (State, HydrationResult) {
    var x := SeedFrom(s, source, wal, active);
    var succeeded := !source.ReadFailed? && LogReplayed(x, wal, active);
    var state := RunRecords(x.state, Tail(x, wal, active));
    (if succeeded then SetReady(state, true) else state,
     HydrationResult(x.loaded, |Tail(x, wal, active)|,
                     if wal.Log? || wal.Unopenable? then LowestCut(active, x.cuts) else None,
                     if wal.Log? then Some(EndPosition(wal.origin, wal.entries, LowestCut(active, x.cuts))) else None,
                     succeeded))
  }

  // ---------------------------------------------------------------------------------------------
  // The recovery procedure
  // ---------------------------------------------------------------------------------------------

  method ResumeOffset(active: seq<Asset>, cuts: map<Asset, U64>) returns (r: Option<U64>)
    requires forall a <- cuts :: a in active
    ensures r == LowestCut(active, cuts)
  {
    if |active| == 0 || exists a <- active :: a !in cuts {
      return None;
    }
    assert active[0] in cuts;
    var lowest := cuts[active[0]];
    ghost var at := active[0];
    var todo := cuts.Keys;
    while todo != {}
      invariant todo <= cuts.Keys && at in cuts && cuts[at] == lowest
      invariant forall a <- cuts :: a in todo || lowest <= cuts[a]
      decreases todo
    {
      var a :| a in todo;
      if cuts[a] < lowest {
        lowest, at := cuts[a], a;
      }
      todo := todo - {a};
    }
    return Some(lowest);
  }

  lemma EmptyTail(entries: seq<LogEntry>, from: Option<U64>, cuts: map<Asset, U64>, s: State)
    requires |entries| == 0
    ensures Applied(entries, from, cuts) == [] && RunRecords(s, Applied(entries, from, cuts)) == s
  {
  }

  /** One more entry of the log. */
  lemma AppliedStep(entries: seq<LogEntry>, from: Option<U64>, cuts: map<Asset, U64>, i: nat, s: State)
    requires i < |entries|
    ensures var before, after := Applied(entries[..i], from, cuts), Applied(entries[..i + 1], from, cuts);
            if Applies(entries[i], from, cuts)
            then |after| == |before| + 1
              && RunRecords(s, after) == ApplyRecord(RunRecords(s, before), entries[i].payload.value)
            else after == before
  {
    hide ApplyRecord;
    assert entries[..i + 1][..i] == entries[..i];
    var before := Applied(entries[..i], from, cuts);
    assert before + [] == before;
    if Applies(entries[i], from, cuts) {
      assert (before + [entries[i].payload.value])[..|before|] == before;
    }
  }

  lemma EndAt(origin: U64, entries: seq<LogEntry>, from: Option<U64>, n: nat)
    requires n <= |entries|
    requires if Stop(entries, from, 0) < |entries| then n == Stop(entries, from, 0) + 1 else n == |entries|
    ensures EndPosition(origin, entries, from) == Position(origin, entries, n)
  {
  }

  /** Replays the log in order, skipping what checkpoints cover, up to the first unreadable record. */
  method ReplayWalTail(p: Projector, origin: U64, entries: seq<LogEntry>, readFails: bool, from: Option<U64>,
                       cuts: map<Asset, U64>)
    returns (replayed: nat, position: U64, succeeded: bool)
    requires p.Valid()
    modifies p, p.state
    ensures p.Valid()
    ensures var records := Applied(entries[..Stop(entries, from, 0)], from, cuts);
            p.state.Value() == RunRecords(old(p.state.Value()), records) && replayed == |records|
    ensures position == EndPosition(origin, entries, from)
    ensures succeeded <==> Stop(entries, from, 0) == |entries| && !readFails
  {
    hide ApplyRecord, NextPublished, Applied, RunRecords, EndPosition, Min;
    EmptyTail(entries[..0], from, cuts, p.state.Value());
    replayed, position := 0, origin;
    var i := 0;
    while i < |entries|
      invariant i <= |entries| && p.Valid() && position == Position(origin, entries, i)
      invariant Stop(entries, from, i) == Stop(entries, from, 0)
      invariant var records := Applied(entries[..i], from, cuts);
                p.state.Value() == RunRecords(old(p.state.Value()), records) && replayed == |records|
    {
      var e := entries[i];
      position := e.end;
      AppliedStep(entries, from, cuts, i, old(p.state.Value()));
      if !(from.Some? && e.end <= from.value) {
        if e.payload.None? {
          EndAt(origin, entries, from, i + 1);
          return replayed, position, false;
        }
        var r := e.payload.value;
        if !(r.AssetPartition() in cuts && e.end <= cuts[r.AssetPartition()]) {
          p.HandleCommand(Record(r));
          replayed := replayed + 1;
        }
      }
      i := i + 1;
    }
    assert entries[..|entries|] == entries;
    EndAt(origin, entries, from, i);
    return replayed, position, !readFails;
  }

  method SeedCheckpoints(p: Projector, active: seq<Asset>, found: seq<Option<BookCheckpoint>>, configured: bool)
    returns (cuts: map<Asset, U64>, loaded: nat)
    requires p.Valid()
    modifies p, p.state
    ensures p.Valid()
    ensures Seeding(p.state.Value(), cuts, loaded)
            == SeedAll(old(p.state.Value()), active, found, configured, Min(|active|, |found|))
  {
    hide HydrateCheckpoint, NextPublished;
    cuts, loaded := map[], 0;
    for i := 0 to Min(|active|, |found|)
      invariant p.Valid()
      invariant Seeding(p.state.Value(), cuts, loaded) == SeedAll(old(p.state.Value()), active, found, configured, i)
    {
      if found[i].Some? {
        var c := found[i].value;
        if !(configured && c.walOffset.None?) {
          if c.walOffset.Some? {
            cuts := cuts[active[i] := c.walOffset.value];
          }
          p.HandleCommand(Command.Hydrate(c));
          loaded := loaded + 1;
        }
      }
    }
  }

  /** Seeds, replays, and marks the model ready only if every recovery source completed. */
  method Hydrate(p: Projector, source: CheckpointSource, wal: Wal, active: seq<Asset>) returns (result: HydrationResult)
    requires p.Valid()
    modifies p, p.state
    ensures p.Valid()
    ensures (p.state.Value(), result) == Recovered(old(p.state.Value()), source, wal, active)
  {
    hide NextPublished, LowestCut, SeedAll, Applied, Stop, ApplyRecord, EndPosition;
    var succeeded, cuts, loaded, replayed := true, map[], 0, 0;
    var resume: Option<U64>, end: Option<U64> := None, None;
    if !wal.FeedOnly? {
      p.HandleCommand(SetHydrated(false));
    }
    match source {
      case NoReader =>
      case ReadFailed => succeeded := false;
      case Found(checkpoints) => cuts, loaded := SeedCheckpoints(p, active, checkpoints, !wal.FeedOnly?);
    }
    var from := ResumeOffset(active, cuts);
    match wal {
      case FeedOnly =>
      case MissingDirectory => succeeded := false;
      case Unopenable => resume, succeeded := from, false;
      case Log(origin, entries, readFails) =>
        var position, ok;
        replayed, position, ok := ReplayWalTail(p, origin, entries, readFails, from, cuts);
        resume, end, succeeded := from, Some(position), succeeded && ok;
    }
    if succeeded {
      p.HandleCommand(SetHydrated(true));
    }
    return HydrationResult(loaded, replayed, resume, end, succeeded);
  }
}
