/** A manifest-aware reader running beside recovery runs, with one retry of the whole resolution. */
module RecoveryReader {
  import opened Types
  import opened Bags
  import opened RecoveryProtocol
  import opened RecoveryTimeline

  /** The reader's row cap per dataset read. */
  const MAX_DATASET_ROWS: nat := 500_000

  datatype ReadError = ObjectNotFound | InvalidManifest | TooManyRows

  /**
   The object store as the reader sees it while somebody else is writing: every operation is answered
   from the current state, and between any two operations the state may have moved on.
   */
  class SharedStore {
    const timeline: seq<Store>
    var now: nat

    constructor (timeline: seq<Store>)
      requires |timeline| > 0
      ensures Valid() && this.timeline == timeline && now == 0
    {
      this.timeline := timeline;
      now := 0;
    }

    ghost predicate Valid()
      reads this
    {
      now < |timeline|
    }

    /** Time passes: the writer may complete any number of further operations, or none. */
    method Observe() returns (state: Store)
      requires Valid()
      modifies this
      ensures Valid() && old(now) <= now && state == timeline[now]
    {
      var later: nat := *;
      if now <= later < |timeline| {
        now := later;
      }
      state := timeline[now];
    }

    method List(g: Group) returns (listing: set<Path>)
      requires Valid()
      modifies this
      ensures Valid() && old(now) <= now && listing == NormalObjects(timeline[now], g)
    {
      var state := Observe();
      listing := NormalObjects(state, g);
    }

    method Get(p: Path) returns (found: Option<StoreObject>)
      requires Valid()
      modifies this
      ensures Valid() && old(now) <= now
      ensures found == if p in timeline[now] then Some(timeline[now][p]) else None
    {
      var state := Observe();
      found := if p in state then Some(state[p]) else None;
    }
  }

  /** Reads the partition's manifest and applies the reader's own checks. */
  method FetchManifest(store: SharedStore, g: Group) returns (r: Result<Option<Manifest>, ReadError>)
    requires store.Valid()
    modifies store
    ensures store.Valid() && old(store.now) <= store.now
    ensures ReadManifest(store.timeline[store.now], g).Ok? ==> r == Ok(ReadManifest(store.timeline[store.now], g).value)
    ensures ReadManifest(store.timeline[store.now], g).Err? ==> r == Err(InvalidManifest)
  {
    var found := store.Get(ManifestPath(g));
    if found.None? {
      return Ok(None);
    }
    if !found.value.ManifestDoc? || !found.value.manifest.Valid() {
      return Err(InvalidManifest);
    }
    var m := found.value.manifest;
    ScopesAgree(g, ManifestPath(g), m);
    if !ReaderScope(g.base, g.dataset, g.hour, Some(g.asset), ManifestPath(g), m) {
      return Err(InvalidManifest);
    }
    return Ok(Some(m));
  }

  /** Lists first and fetches the manifest second; the selected files are a set, without duplicates. */
  method DatasetFiles(store: SharedStore, g: Group) returns (r: Result<set<Path>, ReadError>, ghost tl: nat)
    requires store.Valid()
    modifies store
    ensures store.Valid() && old(store.now) <= tl <= store.now
    ensures ReadManifest(store.timeline[store.now], g).Ok? ==>
              r == Ok(Resolve(NormalObjects(store.timeline[tl], g), ReadManifest(store.timeline[store.now], g).value))
    ensures ReadManifest(store.timeline[store.now], g).Err? ==> r.Err?
  {
    var files := store.List(g);
    tl := store.now;
    var fetched := FetchManifest(store, g);
    if fetched.Err? {
      return Err(fetched.error), tl;
    }
    if fetched.value.Some? {
      files := files - fetched.value.value.superseded;
      files := files + fetched.value.value.active;
    }
    return Ok(files), tl;
  }

  /** From time `from` on, the files of `view` hold their rows for as long as they exist. */
  ghost predicate Served(timeline: seq<Store>, from: nat, view: map<Path, seq<PersistedRecord>>) {
    forall t, p | from <= t < |timeline| && p in view && p in timeline[t] :: timeline[t][p] == Parquet(view[p])
  }

  /** The files selected at a time hold the rows visible then, for as long as they exist. */
  lemma ViewServed(enc: Encoder, g: Group, start: Store, runs: seq<Run>, from: nat)
    requires Chained(enc, g, start, runs) && from < |Timeline(start, runs)|
    ensures var t := Timeline(start, runs);
            && ReadManifest(t[from], g).Ok? && View(t[from], g).Keys == Files(t[from], g)
            && (forall p <- View(t[from], g) :: p in t[from])
            && Served(t, from, View(t[from], g))
  {
    hide ReadManifest, View, Files, Chained, NamesKept, ChangesNamed, ContentKept, Timeline;
    var t := Timeline(start, runs);
    ValidChain(enc, g, start, runs);
    TimelineEvolves(enc, g, start, runs, from, from);
    forall p <- Files(t[from], g) ensures p in View(t[from], g) && p in t[from] {
      ServedLater(enc, g, t[from], t[from], p);
    }
    ViewSelects(t[from], g);
    forall i, p | from <= i < |t| && p in View(t[from], g) && p in t[i]
           ensures t[i][p] == Parquet(View(t[from], g)[p]) {
      TimelineEvolves(enc, g, start, runs, from, i);
      ServedLater(enc, g, t[from], t[i], p);
    }
  }

  lemma ValidChain(enc: Encoder, g: Group, start: Store, runs: seq<Run>)
    requires Chained(enc, g, start, runs)
    ensures ValidGroup(g)
  {
  }

  lemma ViewSelects(s: Store, g: Group)
    requires ReadManifest(s, g).Ok?
    ensures View(s, g).Keys <= Files(s, g)
  {
  }

  /** Reads the selected files in any order, each at its own time, summing the rows. */
  method ReadFiles(store: SharedStore, files: set<Path>, ghost view: map<Path, seq<PersistedRecord>>)
    returns (r: Result<multiset<PersistedRecord>, ReadError>)
    requires store.Valid() && files == view.Keys && Served(store.timeline, store.now, view)
    modifies store
    ensures store.Valid() && old(store.now) <= store.now
    ensures r.Ok? ==> r.value == Bag(view) && |r.value| <= 500_000
    ensures r.Err? ==> r.error == TooManyRows || r.error == ObjectNotFound
    ensures r == Err(TooManyRows) ==> |Bag(view)| > 500_000
    ensures r == Err(ObjectNotFound) ==> exists p <- view :: p !in store.timeline[store.now]
  {
    ghost var left := view;
    var todo, rows := files, multiset{};
    while todo != {}
      invariant store.Valid() && old(store.now) <= store.now && todo == left.Keys
      invariant forall p <- left :: p in view && left[p] == view[p]
      invariant rows + Bag(left) == Bag(view) && |rows| <= MAX_DATASET_ROWS
      decreases todo
    {
      var p :| p in todo;
      var found := store.Get(p);
      if found.None? {
        return Err(ObjectNotFound);
      }
      var batch := found.value.rows;
      BagTake(left, p);
      if |rows| + |batch| > MAX_DATASET_ROWS {
        assert |rows + Bag(left)| == |rows| + |batch| + |Bag(left - {p})|;
        return Err(TooManyRows);
      }
      rows := rows + multiset(batch);
      todo, left := todo - {p}, left - {p};
    }
    return Ok(rows);
  }

  /** Two different runs published their final manifests between the two times. */
  ghost predicate TwoFinals(start: Store, runs: seq<Run>, from: nat, until: nat) {
    exists i, j :: FinalBetween(start, runs, i, from, until) && FinalBetween(start, runs, j, from, until)
                   && FinalAt(start, runs, i) < FinalAt(start, runs, j)
  }

  /** Some state between the two times shows these rows. */
  ghost predicate ShownBetween(g: Group, timeline: seq<Store>, from: nat, until: nat, rows: multiset<PersistedRecord>) {
    exists t | 0 <= t < |timeline| :: from <= t <= until && Shows(g, timeline[t], rows)
  }

  /** The rows of the start, or exactly the rows of one run. */
  ghost predicate OldOrNew(g: Group, start: Store, runs: seq<Run>, rows: multiset<PersistedRecord>)
    requires ReadManifest(start, g).Ok?
  {
    rows == Bag(View(start, g)) || exists i | 0 <= i < |runs| :: rows == multiset(runs[i].request.rows)
  }

  lemma FinalEarlier(start: Store, runs: seq<Run>, i: nat, from: nat, tm: nat, until: nat)
    requires FinalBetween(start, runs, i, tm, until) && from <= tm
    ensures FinalBetween(start, runs, i, from, until)
  {
    hide FinalAt;
  }

  lemma FinalsApart(start: Store, runs: seq<Run>, i: nat, j: nat, from: nat, head: nat, tm: nat, until: nat)
    requires FinalBetween(start, runs, i, from, head) && FinalBetween(start, runs, j, tm, until)
    requires from <= head <= tm <= until
    ensures TwoFinals(start, runs, from, until) && |runs| > 1
  {
    hide FinalAt;
    FinalEarlier(start, runs, j, from, tm, until);
    assert FinalBetween(start, runs, i, from, until);
  }

  lemma ResolvedAt(enc: Encoder, g: Group, start: Store, runs: seq<Run>, tl: nat, tm: nat)
    requires Chained(enc, g, start, runs) && tl <= tm < |Timeline(start, runs)|
    ensures var t := Timeline(start, runs);
            && ReadManifest(t[tm], g).Ok?
            && Resolve(NormalObjects(t[tl], g), ReadManifest(t[tm], g).value) == Files(t[tm], g)
  {
    hide ReadManifest, Files, Chained, NamesKept, ChangesNamed, ContentKept, Timeline, Resolve, NormalObjects;
    TimelineEvolves(enc, g, start, runs, tl, tm);
    ResolvedLater(enc, g, Timeline(start, runs)[tl], Timeline(start, runs)[tm]);
  }

  lemma ShownAt(enc: Encoder, g: Group, start: Store, runs: seq<Run>, tm: nat)
    requires Chained(enc, g, start, runs) && tm < |Timeline(start, runs)|
    ensures var s := Timeline(start, runs)[tm];
            && ReadManifest(start, g).Ok? && ReadManifest(s, g).Ok? && Shows(g, s, Bag(View(s, g)))
            && OldOrNew(g, start, runs, Bag(View(s, g)))
  {
    hide ReadManifest, View, IsChain, Timeline, ContentNamed;
    StateShows(enc, g, start, runs, tm);
  }

  /**
   For every interleaving with any number of runs on the same partition, one after another and each cut
   anywhere, the read returns exactly the rows visible at one moment of it: the rows of the start or the rows
   of one run, never a mixture. It fails if that view exceeds the row cap, and it reports a missing object
   only if two different runs published their final manifests while it was reading, so never beside one run.
   */
  method ReadDatasetWithViewRetry(store: SharedStore, g: Group, ghost enc: Encoder, ghost start: Store,
                                  ghost runs: seq<Run>)
    returns (r: Result<multiset<PersistedRecord>, ReadError>)
    requires store.Valid() && Chained(enc, g, start, runs) && store.timeline == Timeline(start, runs)
    modifies store
    ensures store.Valid() && ReadManifest(start, g).Ok?
    ensures r.Ok? ==> ShownBetween(g, store.timeline, old(store.now), store.now, r.value)
    ensures r.Ok? ==> OldOrNew(g, start, runs, r.value) && |r.value| <= 500_000
    ensures r.Err? ==> r.error == TooManyRows || r.error == ObjectNotFound
    ensures r == Err(TooManyRows) ==> exists rows :: |rows| > 500_000 && OldOrNew(g, start, runs, rows)
    ensures r == Err(ObjectNotFound) ==> TwoFinals(start, runs, old(store.now), store.now)
    ensures |runs| <= 1 ==> r != Err(ObjectNotFound)
  {
    hide Chained, View, Resolve, Files, ReadManifest, FinalBetween, Timeline, Evolves, OldOrNew, FinalAt;
    ghost var t, first, from := Timeline(start, runs), 0, store.now;
    for attempt := 0 to 2
      invariant store.Valid() && attempt < 2 && from == old(store.now) <= store.now
      invariant attempt == 1 ==> FinalBetween(start, runs, first, from, store.now)
    {
      ghost var head := store.now;
      var files, tl := DatasetFiles(store, g);
      ghost var tm := store.now;
      ViewServed(enc, g, start, runs, tm);
      ResolvedAt(enc, g, start, runs, tl, tm);
      ShownAt(enc, g, start, runs, tm);
      r := ReadFiles(store, files.value, View(t[tm], g));
      if r == Err(ObjectNotFound) {
        ghost var p :| p in View(t[tm], g) && p !in t[store.now];
        ghost var last := VanishedMeansFinal(enc, g, start, runs, tm, store.now, p);
        if attempt == 0 {
          first := last;
          FinalEarlier(start, runs, first, from, tm, store.now);
          continue;
        }
        FinalsApart(start, runs, first, last, from, head, tm, store.now);
      }
      return;
    }
    assert false;
  }
}
