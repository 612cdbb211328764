/**
 Two-phase Parquet recovery: what one recovery run does to the object store, step by step, and what
 a manifest-aware reader resolves from it. A run is a history of store states, one per atomic store
 operation; a history that stops early is a run cut by a crash.
 */
module RecoveryProtocol {
  import opened Types
  import opened Digits
  import opened StorageKeys

  /** An object path as its components. */
  type Path = seq<string>

  const MANIFEST_VERSION: nat := 1
  const MANIFEST_PREFIX: string := "_recovery_manifests"
  const OBJECT_PREFIX: string := "_recovery_objects"

  datatype Manifest = Manifest(
    version: nat,
    dataset: string,
    assetKey: string,
    hourKey: Path,
    coveredStartUs: U64,
    coveredEndUs: U64,
    active: set<Path>,
    superseded: set<Path>)
  {
    predicate Valid() {
      && version == MANIFEST_VERSION
      && |dataset| > 0 && |assetKey| > 0 && |hourKey| > 0
      && coveredStartUs < coveredEndUs
      && active != {}
      && active !! superseded
    }
  }

  /** Parquet objects hold rows; anything that is neither rows nor a manifest is unreadable. */
  datatype StoreObject = Parquet(rows: seq<PersistedRecord>) | ManifestDoc(manifest: Manifest) | Unreadable

  type Store = map<Path, StoreObject>

  /** One `(dataset, hour, asset)` partition below a base path; `asset` is the encoded storage key. */
  datatype Group = Group(base: Path, dataset: string, hour: Path, asset: string)

  datatype Coverage = Coverage(startUs: U64, endUs: U64)

  datatype Request = Request(group: Group, rows: seq<PersistedRecord>, coverage: Coverage)

  /** The Parquet encoder as far as file names depend on it: content hash and byte length. */
  datatype Encoder = Encoder(hash: seq<PersistedRecord> -> U64, size: seq<PersistedRecord> -> nat)

  /** Hash and length together determine the content. */
  ghost predicate CollisionFree(enc: Encoder) {
    forall a, b :: enc.hash(a) == enc.hash(b) && enc.size(a) == enc.size(b) ==> a == b
  }

  /** The datasets recovery accepts, with an asset and an hour. */
  predicate ValidGroup(g: Group) {
    g.dataset in {"book_events", "trade_events", "ingest_events"} && |g.asset| > 0 && |g.hour| > 0
  }

  predicate ValidRequest(q: Request) {
    ValidGroup(q.group) && |q.rows| > 0 && q.coverage.startUs < q.coverage.endUs
  }

  // ---------------------------------------------------------------------------------------------
  // Paths
  // ---------------------------------------------------------------------------------------------

  function NormalDir(g: Group): Path {
    g.base + [g.dataset] + g.hour
  }

  function StagedDir(g: Group): Path {
    g.base + [OBJECT_PREFIX, g.dataset] + g.hour
  }

  function ManifestPath(g: Group): Path {
    g.base + [MANIFEST_PREFIX, g.dataset] + g.hour + [g.asset + ".json"]
  }

  predicate Under(dir: Path, p: Path) {
    dir < p
  }

  predicate NameMatches(p: Path, asset: string) {
    |p| > 0 && ObjectFileMatchesAsset(p[|p| - 1], asset)
  }

  predicate NormalObject(g: Group, p: Path) {
    Under(NormalDir(g), p) && NameMatches(p, g.asset)
  }

  predicate StagedObject(g: Group, p: Path) {
    Under(StagedDir(g), p) && NameMatches(p, g.asset)
  }

  predicate GroupObject(g: Group, p: Path) {
    NormalObject(g, p) || StagedObject(g, p)
  }

  function FileName(enc: Encoder, g: Group, rows: seq<PersistedRecord>): string
    requires |rows| > 0
  {
    ObjectFileName(g.asset, rows[0].PartitionTimestampUs(), enc.hash(rows), enc.size(rows))
  }

  function StagedPath(enc: Encoder, q: Request): Path
    requires |q.rows| > 0
  {
    StagedDir(q.group) + [FileName(enc, q.group, q.rows)]
  }

  function RecoveredPath(enc: Encoder, q: Request): Path
    requires |q.rows| > 0
  {
    NormalDir(q.group) + [FileName(enc, q.group, q.rows)]
  }

  /**
   Where a run's objects lie: the hidden one below the base path's `_recovery_objects`, the promoted one beside the
   live files, the manifest below `_recovery_manifests`; the objects' name reads back as asset, time of the first
   row, content hash and length.
   */
  lemma LayoutIs(enc: Encoder, q: Request) returns (name: string)
    requires ValidRequest(q)
    ensures var g, rows := q.group, q.rows;
            && SplitFileName(name) == Some(FileParts(g.asset, Dec(rows[0].PartitionTimestampUs()),
                                                     HexPadded(enc.hash(rows), 16), Dec(enc.size(rows))))
            && StagedPath(enc, q) == g.base + (["_recovery_objects", g.dataset] + g.hour + [name])
            && RecoveredPath(enc, q) == g.base + ([g.dataset] + g.hour + [name])
            && ManifestPath(g) == g.base + (["_recovery_manifests", g.dataset] + g.hour + [g.asset + ".json"])
  {
    var g, rows := q.group, q.rows;
    hide FileName, Dec, HexPadded, SplitFileName;
    name := FileName(enc, g, rows);
    NameReadsBack(enc, g, rows);
  }

  lemma NameReadsBack(enc: Encoder, g: Group, rows: seq<PersistedRecord>)
    requires |rows| > 0
    ensures SplitFileName(FileName(enc, g, rows))
            == Some(FileParts(g.asset, Dec(rows[0].PartitionTimestampUs()), HexPadded(enc.hash(rows), 16),
                              Dec(enc.size(rows))))
  {
    hide Dec, HexPadded, SplitFileName, ObjectFileName;
    SplitOfGeneratedName(g.asset, rows[0].PartitionTimestampUs(), enc.hash(rows), enc.size(rows));
  }

  lemma PathsAreSeparate(g: Group, p: Path)
    requires ValidGroup(g)
    ensures !(NormalObject(g, p) && StagedObject(g, p))
    ensures !GroupObject(g, ManifestPath(g))
  {
    var at := |g.base|;
    assert NormalDir(g)[at] == g.dataset && StagedDir(g)[at] == OBJECT_PREFIX;
    assert ManifestPath(g)[at] == MANIFEST_PREFIX;
    assert Under(NormalDir(g), p) ==> p[at] == g.dataset;
    assert Under(StagedDir(g), p) ==> p[at] == OBJECT_PREFIX;
  }

  lemma NewPathsBelong(enc: Encoder, q: Request)
    requires ValidRequest(q)
    ensures StagedObject(q.group, StagedPath(enc, q)) && NormalObject(q.group, RecoveredPath(enc, q))
    ensures StagedPath(enc, q) != RecoveredPath(enc, q)
  {
    var g, rows := q.group, q.rows;
    FileAssetKeyOfGeneratedName(g.asset, rows[0].PartitionTimestampUs(), enc.hash(rows), enc.size(rows));
    PathsAreSeparate(g, StagedPath(enc, q));
  }

  // ---------------------------------------------------------------------------------------------
  // Manifests
  // ---------------------------------------------------------------------------------------------

  predicate ObjectInScope(g: Group, p: Path) {
    && (Under(NormalDir(g), p) || Under(StagedDir(g), p))
    && StripSuffix(p[|p| - 1], SUFFIX).Some?
    && NameMatches(p, g.asset)
  }

  predicate StemMatches(path: Path, key: string) {
    |path| > 0
    && var stem := StripSuffix(path[|path| - 1], ".json");
       stem.Some? && ComponentMatchesKey(stem.value, key)
  }

  /** A manifest's path carries a partition's key: the file is named by it, or by its legacy form. */
  lemma StemMatchesIff(dir: Path, name: string, key: string)
    ensures StemMatches(dir + [name], key) <==> name == key + ".json" || name == Reencode(key) + ".json"
  {
    StripSuffixJoins(name, ".json");
    StripSuffixOf(key, ".json");
    StripSuffixOf(Reencode(key), ".json");
  }

  /** The writer's check: the manifest is about this partition and names nothing outside it. */
  predicate WriterScope(g: Group, path: Path, m: Manifest) {
    && m.dataset == g.dataset && m.assetKey == g.asset && m.hourKey == g.hour
    && StemMatches(path, g.asset)
    && (forall p <- m.active :: ObjectInScope(g, p))
    && (forall p <- m.superseded :: ObjectInScope(g, p))
  }

  /** The reader's check, which matches object names against the manifest's own asset key. */
  predicate ReaderScope(base: Path, dataset: string, hour: Path, expected: Option<string>, path: Path, m: Manifest) {
    var own := Group(base, dataset, hour, m.assetKey);
    && m.dataset == dataset && m.hourKey == hour
    && (expected.None? || m.assetKey == expected.value)
    && StemMatches(path, m.assetKey)
    && (forall p <- m.active :: ObjectInScope(own, p))
    && (forall p <- m.superseded :: ObjectInScope(own, p))
  }

  datatype ManifestError = CorruptManifest

  /** Fetches and checks a partition's manifest as the writer does. */
  function ReadManifest(store: Store, g: Group): Result<Option<Manifest>, ManifestError> {
    var path := ManifestPath(g);
    if path !in store then Ok(None)
    else if !store[path].ManifestDoc? then Err(CorruptManifest)
    else
      var m := store[path].manifest;
      if m.Valid() && WriterScope(g, path, m) then Ok(Some(m)) else Err(CorruptManifest)
  }

  function NormalObjects(store: Store, g: Group): set<Path> {
    set p | p in store && NormalObject(g, p)
  }

  function StagedObjects(store: Store, g: Group): set<Path> {
    set p | p in store && StagedObject(g, p)
  }

  /** The files a reader selects from a listing and a manifest. */
  function Resolve(listing: set<Path>, m: Option<Manifest>): set<Path> {
    if m.None? then listing else listing - m.value.superseded + m.value.active
  }

  // ---------------------------------------------------------------------------------------------
  // One run
  // ---------------------------------------------------------------------------------------------

  /** Everything the run replaces: current objects plus all a previous manifest named. */
  function Superseded(store: Store, g: Group): set<Path> {
    var previous := ReadManifest(store, g);
    NormalObjects(store, g) + StagedObjects(store, g)
    + if previous.Ok? && previous.value.Some? then previous.value.value.active + previous.value.value.superseded else {}
  }

  function NewManifest(q: Request, active: Path, superseded: set<Path>): Manifest {
    Manifest(MANIFEST_VERSION, q.group.dataset, q.group.asset, q.group.hour,
             q.coverage.startUs, q.coverage.endUs, {active}, superseded)
  }

  /** Phase one: readers switch to the hidden object; the future normal path is hidden in advance. */
  function StagedManifest(enc: Encoder, q: Request, start: Store): Manifest
    requires ValidRequest(q)
  {
    NewManifest(q, StagedPath(enc, q), Superseded(start, q.group) + {RecoveredPath(enc, q)} - {StagedPath(enc, q)})
  }

  /** Phase two: readers switch to the promoted object. */
  function FinalManifest(enc: Encoder, q: Request, start: Store): Manifest
    requires ValidRequest(q)
  {
    NewManifest(q, RecoveredPath(enc, q), Superseded(start, q.group) + {StagedPath(enc, q)} - {RecoveredPath(enc, q)})
  }

  /** The `i`-th store operation of a run that started in `start`. A cleanup delete may also fail. */
  ghost predicate Step(enc: Encoder, q: Request, start: Store, i: nat, before: Store, after: Store)
    requires ValidRequest(q)
  {
    if i == 0 then after == before[StagedPath(enc, q) := Parquet(q.rows)]
    else if i == 1 then after == before[ManifestPath(q.group) := ManifestDoc(StagedManifest(enc, q, start))]
    else if i == 2 then after == before[RecoveredPath(enc, q) := Parquet(q.rows)]
    else if i == 3 then after == before[ManifestPath(q.group) := ManifestDoc(FinalManifest(enc, q, start))]
    else after == before || exists p <- FinalManifest(enc, q, start).superseded :: after == before - {p}
  }

  /** A history of one run, complete or cut after any operation: the start, then one state per operation. */
  ghost predicate IsRun(enc: Encoder, q: Request, h: seq<Store>) {
    && ValidRequest(q)
    && |h| > 0
    && (|h| > 1 ==>
          var n := |h| - 1;
          IsRun(enc, q, h[..n]) && Step(enc, q, h[0], n - 1, h[n - 1], h[n]))
  }

  /** The number of states after which the staged manifest is published. */
  const PUBLISHED: nat := 3

  /** The run went through every operation and every superseded object is gone. */
  ghost predicate CompletedCleanly(enc: Encoder, q: Request, h: seq<Store>) {
    IsRun(enc, q, h) && |h| > 4 && forall p <- FinalManifest(enc, q, h[0]).superseded :: p !in h[|h| - 1]
  }

  // ---------------------------------------------------------------------------------------------
  // What every reachable partition satisfies
  // ---------------------------------------------------------------------------------------------

  /** An object carrying the generated name of some rows holds exactly those rows. */
  ghost predicate ContentNamed(enc: Encoder, g: Group, store: Store) {
    forall p <- store | GroupObject(g, p) :: HoldsWhatItIsNamedFor(enc, g, p, store[p])
  }

  ghost predicate HoldsWhatItIsNamedFor(enc: Encoder, g: Group, p: Path, content: StoreObject) {
    forall rows | |rows| > 0 && |p| > 0 && p[|p| - 1] == FileName(enc, g, rows) :: content == Parquet(rows)
  }

  ghost predicate Consistent(enc: Encoder, g: Group, store: Store) {
    && ReadManifest(store, g).Ok?
    && (forall p <- store | GroupObject(g, p) :: store[p].Parquet?)
    && (ReadManifest(store, g).value.Some? ==> ReadManifest(store, g).value.value.active <= store.Keys)
    && ContentNamed(enc, g, store)
  }

  /** Every normal object of the group is active or superseded: none is visible by accident. */
  ghost predicate FullyGoverned(g: Group, store: Store) {
    var m := ReadManifest(store, g);
    && m.Ok? && m.value.Some?
    && NormalObjects(store, g) <= m.value.value.active + m.value.value.superseded
  }

  ghost function Files(store: Store, g: Group): set<Path>
    requires ReadManifest(store, g).Ok?
  {
    Resolve(NormalObjects(store, g), ReadManifest(store, g).value)
  }

  /** The rows visible in one store state, per file. */
  ghost function View(store: Store, g: Group): map<Path, seq<PersistedRecord>>
    requires ReadManifest(store, g).Ok?
  {
    map p | p in Files(store, g) && p in store && store[p].Parquet? :: store[p].rows
  }

  /** Selected files exist and are readable, so the view omits nothing. */
  lemma ViewIsComplete(enc: Encoder, g: Group, store: Store)
    requires ValidGroup(g) && Consistent(enc, g, store)
    ensures View(store, g).Keys == Files(store, g)
  {
    var m := ReadManifest(store, g).value;
    assert m.Some? ==> forall p <- m.value.active :: GroupObject(g, p);
  }

  /** An empty partition is consistent, so every partition the writers build from nothing is. */
  lemma EmptyPartitionConsistent(enc: Encoder, g: Group, store: Store)
    requires ValidGroup(g) && ManifestPath(g) !in store && forall p <- store :: !GroupObject(g, p)
    ensures Consistent(enc, g, store) && View(store, g) == map[]
  {
  }

  /** The path a live write of some rows goes to. */
  function LivePath(enc: Encoder, g: Group, rows: seq<PersistedRecord>): Path
    requires |rows| > 0
  {
    NormalDir(g) + [FileName(enc, g, rows)]
  }

  lemma LivePathBelongs(enc: Encoder, g: Group, rows: seq<PersistedRecord>)
    requires ValidGroup(g) && |rows| > 0
    ensures var p := LivePath(enc, g, rows);
            NormalObject(g, p) && p != ManifestPath(g) && p[|p| - 1] == FileName(enc, g, rows)
  {
    FileAssetKeyOfGeneratedName(g.asset, rows[0].PartitionTimestampUs(), enc.hash(rows), enc.size(rows));
    PathsAreSeparate(g, LivePath(enc, g, rows));
  }

  lemma ContentStaysNamed(enc: Encoder, g: Group, store: Store, rows: seq<PersistedRecord>)
    requires CollisionFree(enc) && ValidGroup(g) && ContentNamed(enc, g, store) && |rows| > 0
    ensures ContentNamed(enc, g, store[LivePath(enc, g, rows) := Parquet(rows)])
  {
    LivePathBelongs(enc, g, rows);
    hide GroupObject, FileName, CollisionFree, LivePath;
    var p := LivePath(enc, g, rows);
    var after := store[p := Parquet(rows)];
    forall p', rows' | p' in after && GroupObject(g, p') && |rows'| > 0 && p'[|p'| - 1] == FileName(enc, g, rows')
      ensures after[p'] == Parquet(rows')
    {
      if p' == p {
        SameNameSameRows(enc, g, rows, rows');
      }
    }
  }

  /**
   A live write between runs keeps the partition consistent, and its rows become visible if and only
   if the manifest in force does not supersede the name they were given.
   */
  lemma LiveWriteVisibleIff(enc: Encoder, g: Group, store: Store, rows: seq<PersistedRecord>)
    requires CollisionFree(enc) && ValidGroup(g) && Consistent(enc, g, store) && |rows| > 0
    ensures var p := LivePath(enc, g, rows);
            var after := store[p := Parquet(rows)];
            && Consistent(enc, g, after)
            && var m := ReadManifest(store, g).value;
               View(after, g)
               == if m.Some? && p in m.value.superseded then View(store, g) else View(store, g)[p := rows]
  {
    hide ContentNamed, NormalObject, WriterScope, ManifestPath, LivePath, FileName, CollisionFree;
    LivePathBelongs(enc, g, rows);
    ContentStaysNamed(enc, g, store, rows);
    var p := LivePath(enc, g, rows);
    assert NormalObjects(store[p := Parquet(rows)], g) == NormalObjects(store, g) + {p};
  }

  // ---------------------------------------------------------------------------------------------
  // The state after each operation
  // ---------------------------------------------------------------------------------------------

  /** What the store looks like after `t` operations of a run. */
  ghost predicate Shape(enc: Encoder, q: Request, start: Store, t: nat, s: Store)
    requires ValidRequest(q)
  {
    var g, mp := q.group, ManifestPath(q.group);
    var staged, recovered := StagedPath(enc, q), RecoveredPath(enc, q);
    && (t < 2 ==> (mp in s <==> mp in start) && (mp in s ==> s[mp] == start[mp]))
    && (2 <= t < 4 ==> mp in s && s[mp] == ManifestDoc(StagedManifest(enc, q, start)))
    && (4 <= t ==> mp in s && s[mp] == ManifestDoc(FinalManifest(enc, q, start)))
    && (forall p <- s | GroupObject(g, p) ::
          if p == staged || p == recovered then s[p] == Parquet(q.rows) else p in start && s[p] == start[p])
    && (forall p <- s | p == staged && p !in start :: t >= 1)
    && (forall p <- s | p == recovered && p !in start :: t >= 3)
    && (t <= 4 ==> forall p <- start :: p in s)
    && (1 <= t <= 4 ==> staged in s)
    && (3 <= t ==> recovered in s)
    && (forall p <- start :: p in s || p in FinalManifest(enc, q, start).superseded)
    && (forall p | p != mp && !GroupObject(g, p) :: (p in s <==> p in start) && (p in s ==> s[p] == start[p]))
  }

  lemma NewContentAlreadyNamed(enc: Encoder, q: Request, store: Store)
    requires ValidRequest(q) && Consistent(enc, q.group, store)
    ensures StagedPath(enc, q) in store ==> store[StagedPath(enc, q)] == Parquet(q.rows)
    ensures RecoveredPath(enc, q) in store ==> store[RecoveredPath(enc, q)] == Parquet(q.rows)
  {
    NewPathsBelong(enc, q);
  }

  lemma SupersededInScope(enc: Encoder, q: Request, start: Store)
    requires ValidRequest(q)
    ensures forall p <- Superseded(start, q.group) :: GroupObject(q.group, p)
    ensures forall p <- FinalManifest(enc, q, start).superseded :: GroupObject(q.group, p)
    ensures forall p <- StagedManifest(enc, q, start).superseded :: GroupObject(q.group, p)
  {
    NewPathsBelong(enc, q);
  }

  lemma ShapePreserved(enc: Encoder, q: Request, start: Store, t: nat, before: Store, after: Store)
    requires ValidRequest(q) && Shape(enc, q, start, t, before) && Step(enc, q, start, t, before, after)
    ensures Shape(enc, q, start, t + 1, after)
  {
    NewPathsBelong(enc, q);
    SupersededInScope(enc, q, start);
    PathsAreSeparate(q.group, StagedPath(enc, q));
  }

  lemma ShapeAtStart(enc: Encoder, q: Request, start: Store)
    requires ValidRequest(q) && Consistent(enc, q.group, start)
    ensures Shape(enc, q, start, 0, start)
  {
    NewContentAlreadyNamed(enc, q, start);
    NewPathsBelong(enc, q);
  }

  lemma {:induction false} ShapeHolds(enc: Encoder, q: Request, h: seq<Store>, t: nat)
    requires IsRun(enc, q, h) && t < |h| && Consistent(enc, q.group, h[0])
    ensures Shape(enc, q, h[0], t, h[t])
  {
    hide Shape, Step, Consistent, ValidRequest;
    var n := |h| - 1;
    if t == 0 {
      ShapeAtStart(enc, q, h[0]);
    } else if t < n {
      ShapeHolds(enc, q, h[..n], t);
    } else {
      ShapeHolds(enc, q, h[..n], n - 1);
      ShapePreserved(enc, q, h[0], n - 1, h[n - 1], h[n]);
    }
  }

  // ---------------------------------------------------------------------------------------------
  // Scope: what a run may publish, replace and delete
  // ---------------------------------------------------------------------------------------------

  lemma NewManifestsInScope(enc: Encoder, q: Request, start: Store)
    requires ValidRequest(q)
    ensures StagedManifest(enc, q, start).Valid() && FinalManifest(enc, q, start).Valid()
    ensures WriterScope(q.group, ManifestPath(q.group), StagedManifest(enc, q, start))
    ensures WriterScope(q.group, ManifestPath(q.group), FinalManifest(enc, q, start))
  {
    var g, path := q.group, ManifestPath(q.group);
    NewPathsBelong(enc, q);
    SupersededInScope(enc, q, start);
    StripSuffixOf(g.asset, ".json");
    assert path[|path| - 1] == g.asset + ".json";
    GroupObjectsInScope(g);
  }

  lemma GroupObjectsInScope(g: Group)
    ensures forall p | GroupObject(g, p) :: ObjectInScope(g, p)
  {
    forall p | GroupObject(g, p) ensures ObjectInScope(g, p) {
      MatchingNameIsParquet(p[|p| - 1], g.asset);
    }
  }

  /** Both checks agree on a manifest looked up for one asset. */
  lemma ScopesAgree(g: Group, path: Path, m: Manifest)
    ensures WriterScope(g, path, m) <==> ReaderScope(g.base, g.dataset, g.hour, Some(g.asset), path, m)
  {
    if m.assetKey == g.asset {
      assert Group(g.base, g.dataset, g.hour, m.assetKey) == g;
    }
  }

  /**
   Both manifests a run publishes pass the writer's and the reader's scope checks and state the coverage of the
   request, and every path the run deletes lies under the partition's two directories and carries the asset's name.
   */
  lemma RunStaysInScope(enc: Encoder, q: Request, start: Store)
    requires ValidRequest(q)
    ensures forall m | m == StagedManifest(enc, q, start) || m == FinalManifest(enc, q, start) ::
              && m.Valid() && WriterScope(q.group, ManifestPath(q.group), m)
              && m.coveredStartUs == q.coverage.startUs && m.coveredEndUs == q.coverage.endUs
              && ReaderScope(q.group.base, q.group.dataset, q.group.hour, Some(q.group.asset), ManifestPath(q.group), m)
    ensures forall p <- FinalManifest(enc, q, start).superseded ::
              (Under(NormalDir(q.group), p) || Under(StagedDir(q.group), p)) && NameMatches(p, q.group.asset)
  {
    NewManifestsInScope(enc, q, start);
    SupersededInScope(enc, q, start);
    ScopesAgree(q.group, ManifestPath(q.group), StagedManifest(enc, q, start));
    ScopesAgree(q.group, ManifestPath(q.group), FinalManifest(enc, q, start));
  }

  /** At every point of a run, every path outside the partition and its manifest is as it was. */
  lemma RunTouchesOnlyItsGroup(enc: Encoder, q: Request, h: seq<Store>, t: nat, p: Path)
    requires IsRun(enc, q, h) && t < |h| && Consistent(enc, q.group, h[0])
    requires p != ManifestPath(q.group) && !GroupObject(q.group, p)
    ensures p in h[t] <==> p in h[0]
    ensures p in h[t] ==> h[t][p] == h[0][p]
  {
    ShapeHolds(enc, q, h, t);
  }

  /**
   Another asset's generated files in any directory survive a run untouched, except when that asset's
   id is literally the recovered asset's encoded key, the legacy ambiguity.
   */
  lemma OtherAssetsSurvive(enc: Encoder, q: Request, h: seq<Store>, t: nat,
                           recovered: seq<Byte>, other: seq<Byte>, dir: Path, ts: nat, hash: U64, len: nat)
    requires IsRun(enc, q, h) && t < |h| && Consistent(enc, q.group, h[0])
    requires q.group.asset == KeyOf(recovered) && |other| > 0 && other != recovered
    requires forall i | 0 <= i < |KeyOf(recovered)| :: KeyOf(recovered)[i] as int < 256
    requires other != BytesOf(KeyOf(recovered))
    ensures var p := dir + [ObjectFileName(KeyOf(other), ts, hash, len)];
            (p in h[t] <==> p in h[0]) && (p in h[t] ==> h[t][p] == h[0][p])
  {
    var name := ObjectFileName(KeyOf(other), ts, hash, len);
    var p := dir + [name];
    FileMatchesOtherAssetIff(other, recovered, ts, hash, len);
    assert p[|p| - 1] == name;
    assert name[|name| - 1] == 't';
    assert ManifestPath(q.group)[|ManifestPath(q.group)| - 1][|q.group.asset| + 4] == 'n';
    RunTouchesOnlyItsGroup(enc, q, h, t, p);
  }

  // ---------------------------------------------------------------------------------------------
  // What a reader sees
  // ---------------------------------------------------------------------------------------------

  lemma ManifestAt(enc: Encoder, q: Request, h: seq<Store>, t: nat)
    requires IsRun(enc, q, h) && t < |h| && Consistent(enc, q.group, h[0])
    ensures t < 2 ==> ReadManifest(h[t], q.group) == ReadManifest(h[0], q.group)
    ensures 2 <= t < 4 ==> ReadManifest(h[t], q.group) == Ok(Some(StagedManifest(enc, q, h[0])))
    ensures 4 <= t ==> ReadManifest(h[t], q.group) == Ok(Some(FinalManifest(enc, q, h[0])))
  {
    ShapeHolds(enc, q, h, t);
    NewManifestsInScope(enc, q, h[0]);
  }

  /** The only files ever listed are those at the start and the promoted one, late enough. */
  lemma ListingAt(enc: Encoder, q: Request, h: seq<Store>, t: nat)
    requires IsRun(enc, q, h) && t < |h| && Consistent(enc, q.group, h[0])
    ensures NormalObjects(h[t], q.group) <= NormalObjects(h[0], q.group) + {RecoveredPath(enc, q)}
    ensures t < 2 ==> NormalObjects(h[t], q.group) == NormalObjects(h[0], q.group)
  {
    ShapeHolds(enc, q, h, t);
    PathsAreSeparate(q.group, StagedPath(enc, q));
    NewPathsBelong(enc, q);
  }

  /**
   The heart of the interleaving argument: a listing taken at `tl` and a manifest fetched no earlier,
   at `tm`, resolve to the old files, to the staged object alone, or to the promoted object alone.
   */
  lemma ResolvedDuringRun(enc: Encoder, q: Request, h: seq<Store>, tl: nat, tm: nat)
    requires IsRun(enc, q, h) && tl <= tm < |h| && Consistent(enc, q.group, h[0])
    ensures ReadManifest(h[tm], q.group).Ok?
    ensures var files := Resolve(NormalObjects(h[tl], q.group), ReadManifest(h[tm], q.group).value);
            if tm < 2 then files == Files(h[0], q.group)
            else if tm < 4 then files == {StagedPath(enc, q)}
            else files == {RecoveredPath(enc, q)}
  {
    ManifestAt(enc, q, h, tm);
    ListingAt(enc, q, h, tl);
    NewPathsBelong(enc, q);
  }

  /**
   The order of the two fetches is essential. Had the manifest been fetched before the listing, a
   partition's first recovery would be read with the old and the new rows together.
   */
  lemma ManifestBeforeListingWouldMix(enc: Encoder, q: Request, h: seq<Store>)
    requires IsRun(enc, q, h) && |h| > 3 && Consistent(enc, q.group, h[0])
    requires ManifestPath(q.group) !in h[0]
    ensures ReadManifest(h[0], q.group).Ok?
    ensures Resolve(NormalObjects(h[3], q.group), ReadManifest(h[0], q.group).value)
            == Files(h[0], q.group) + {RecoveredPath(enc, q)}
  {
    ShapeHolds(enc, q, h, 3);
    ListingAt(enc, q, h, 3);
    NewPathsBelong(enc, q);
  }

  /**
   Reading a selected file at any later time yields the rows it was selected for; the file can be
   missing only once the final manifest is published.
   */
  lemma FileDuringRun(enc: Encoder, q: Request, h: seq<Store>, tm: nat, t: nat, p: Path)
    requires IsRun(enc, q, h) && tm <= t < |h| && Consistent(enc, q.group, h[0])
    requires p in if tm < 2 then Files(h[0], q.group)
                  else if tm < 4 then {StagedPath(enc, q)}
                  else {RecoveredPath(enc, q)}
    ensures p in h[t] ==> h[t][p] == Parquet(if tm < 2 then View(h[0], q.group)[p] else q.rows)
    ensures p !in h[t] ==> tm < 4 < t
  {
    ShapeHolds(enc, q, h, t);
    NewPathsBelong(enc, q);
    NewContentAlreadyNamed(enc, q, h[0]);
    ViewIsComplete(enc, q.group, h[0]);
    FilesAreGroupObjects(h[0], q.group);
    hide IsRun, ContentNamed, NormalObject, StagedObject, WriterScope, StagedPath, RecoveredPath, ManifestPath,
      ReadManifest, Files;
  }

  lemma FilesAreGroupObjects(store: Store, g: Group)
    requires ReadManifest(store, g).Ok?
    ensures forall p <- Files(store, g) :: GroupObject(g, p)
  {
  }

  // ---------------------------------------------------------------------------------------------
  // Runs one after another, each cut anywhere
  // ---------------------------------------------------------------------------------------------

  lemma SameNameSameRows(enc: Encoder, g: Group, a: seq<PersistedRecord>, b: seq<PersistedRecord>)
    requires CollisionFree(enc) && |a| > 0 && |b| > 0 && FileName(enc, g, a) == FileName(enc, g, b)
    ensures a == b
  {
    FileNameInjective(g.asset, a[0].PartitionTimestampUs(), enc.hash(a), enc.size(a),
                      g.asset, b[0].PartitionTimestampUs(), enc.hash(b), enc.size(b));
  }

  lemma ConsistentThroughout(enc: Encoder, q: Request, h: seq<Store>, t: nat)
    requires CollisionFree(enc)
    requires IsRun(enc, q, h) && t < |h| && Consistent(enc, q.group, h[0])
    ensures Consistent(enc, q.group, h[t])
  {
    var g := q.group;
    ShapeHolds(enc, q, h, t);
    ManifestAt(enc, q, h, t);
    NewPathsBelong(enc, q);
    forall p, rows | p in h[t] && GroupObject(g, p) && |rows| > 0 && p[|p| - 1] == FileName(enc, g, rows)
      ensures h[t][p] == Parquet(rows)
    {
      if p == StagedPath(enc, q) || p == RecoveredPath(enc, q) {
        SameNameSameRows(enc, g, rows, q.rows);
      }
    }
  }

  /** Before the staged manifest is published, the view is untouched. */
  lemma CutBeforePublication(enc: Encoder, q: Request, h: seq<Store>)
    requires IsRun(enc, q, h) && |h| < PUBLISHED && Consistent(enc, q.group, h[0])
    ensures var last := h[|h| - 1];
            && ReadManifest(last, q.group).Ok?
            && View(last, q.group) == View(h[0], q.group)
            && (FullyGoverned(q.group, h[0]) ==> FullyGoverned(q.group, last))
  {
    hide WriterScope, ContentNamed, NormalDir, StagedDir;
    var t := |h| - 1;
    ManifestAt(enc, q, h, t);
    ListingAt(enc, q, h, t);
    ViewIsComplete(enc, q.group, h[0]);
    forall p | p in Files(h[0], q.group) ensures p in h[t] && h[t][p] == Parquet(View(h[0], q.group)[p]) {
      FileDuringRun(enc, q, h, t, t, p);
    }
  }

  lemma ViewOfOneFile(store: Store, g: Group, p: Path, rows: seq<PersistedRecord>)
    requires ReadManifest(store, g).Ok? && Files(store, g) == {p} && p in store && store[p] == Parquet(rows)
    ensures View(store, g) == map[p := rows]
  {
  }

  /** From then on, the view is exactly the run's rows, in one file. */
  lemma CutAfterPublication(enc: Encoder, q: Request, h: seq<Store>)
    requires IsRun(enc, q, h) && |h| >= PUBLISHED && Consistent(enc, q.group, h[0])
    ensures ReadManifest(h[|h| - 1], q.group).Ok?
    ensures exists p :: View(h[|h| - 1], q.group) == map[p := q.rows]
  {
    hide Consistent, StagedPath, RecoveredPath, NormalObject, ReadManifest, View;
    var t := |h| - 1;
    var p := if t < 4 then StagedPath(enc, q) else RecoveredPath(enc, q);
    ResolvedDuringRun(enc, q, h, t, t);
    FileDuringRun(enc, q, h, t, t, p);
    ViewOfOneFile(h[t], q.group, p, q.rows);
  }

  lemma GovernedAfterPublication(enc: Encoder, q: Request, h: seq<Store>)
    requires IsRun(enc, q, h) && |h| >= PUBLISHED && Consistent(enc, q.group, h[0])
    ensures FullyGoverned(q.group, h[|h| - 1])
  {
    hide Consistent, NormalObject, StagedObject, ReadManifest, StagedPath, RecoveredPath;
    ManifestAt(enc, q, h, |h| - 1);
    ListingAt(enc, q, h, |h| - 1);
  }

  /**
   A run cut after any operation leaves the old view if it had not yet published its staged manifest,
   and otherwise exactly its own rows in one file, with every normal object governed.
   */
  lemma RunOutcome(enc: Encoder, q: Request, h: seq<Store>)
    requires CollisionFree(enc)
    requires IsRun(enc, q, h) && Consistent(enc, q.group, h[0])
    ensures var last := h[|h| - 1];
            && Consistent(enc, q.group, last)
            && (|h| < PUBLISHED ==> View(last, q.group) == View(h[0], q.group))
            && (|h| >= PUBLISHED ==>
                  && (exists p :: View(last, q.group) == map[p := q.rows])
                  && FullyGoverned(q.group, last))
  {
    hide Consistent, Step, View, FullyGoverned;
    ConsistentThroughout(enc, q, h, |h| - 1);
    if |h| < PUBLISHED {
      CutBeforePublication(enc, q, h);
    } else {
      CutAfterPublication(enc, q, h);
      GovernedAfterPublication(enc, q, h);
    }
  }

  datatype Run = Run(request: Request, history: seq<Store>)

  /** A sequence of runs on one partition, each starting where the one before stopped. */
  ghost predicate IsChain(enc: Encoder, g: Group, start: Store, runs: seq<Run>) {
    forall i | 0 <= i < |runs| ::
      && IsRun(enc, runs[i].request, runs[i].history)
      && runs[i].request.group == g
      && runs[i].history[0] == EndOf(start, runs[..i])
  }

  ghost function EndOf(start: Store, runs: seq<Run>): Store {
    if |runs| == 0 || |runs[|runs| - 1].history| == 0 then start
    else var h := runs[|runs| - 1].history; h[|h| - 1]
  }

  /** The rows of the last run that published, if any did. */
  ghost function LastPublished(runs: seq<Run>): Option<seq<PersistedRecord>> {
    if |runs| == 0 then None
    else
      var last := runs[|runs| - 1];
      if |last.history| >= PUBLISHED then Some(last.request.rows) else LastPublished(runs[..|runs| - 1])
  }

  /**
   After any number of runs, with any records, each cut at any operation, the view is the record set
   of the last run that published its staged manifest, or the original view if none did.
   */
  lemma {:induction false} AnyRunsLastPublishedWins(enc: Encoder, g: Group, start: Store, runs: seq<Run>)
    requires CollisionFree(enc) && ValidGroup(g) && Consistent(enc, g, start) && IsChain(enc, g, start, runs)
    ensures var last := EndOf(start, runs);
            && Consistent(enc, g, last)
            && (LastPublished(runs).None? ==> View(last, g) == View(start, g))
            && (LastPublished(runs).Some? ==>
                  && (exists p :: View(last, g) == map[p := LastPublished(runs).value])
                  && FullyGoverned(g, last))
  {
    hide Consistent, View, FullyGoverned, ValidGroup;
    if |runs| > 0 {
      var init, last := runs[..|runs| - 1], runs[|runs| - 1];
      forall i | 0 <= i < |init| ensures init[..i] == runs[..i] {}
      AnyRunsLastPublishedWins(enc, g, start, init);
      RunOutcome(enc, last.request, last.history);
      if |last.history| < PUBLISHED {
        CutBeforePublication(enc, last.request, last.history);
      }
    }
  }

  // ---------------------------------------------------------------------------------------------
  // Partitions side by side
  // ---------------------------------------------------------------------------------------------

  /** Nothing belongs to both partitions. */
  ghost predicate Separate(a: Group, b: Group) {
    && (forall p | GroupObject(a, p) :: !GroupObject(b, p) && p != ManifestPath(b))
    && (forall p | GroupObject(b, p) :: p != ManifestPath(a))
    && ManifestPath(a) != ManifestPath(b)
  }

  /** The two stores hold the same objects and manifest of a partition. */
  ghost predicate AgreeOn(g: Group, a: Store, b: Store) {
    forall p | GroupObject(g, p) || p == ManifestPath(g) :: (p in a <==> p in b) && (p in a ==> a[p] == b[p])
  }

  lemma AgreementPreserves(enc: Encoder, g: Group, a: Store, b: Store)
    requires AgreeOn(g, a, b) && Consistent(enc, g, a)
    ensures Consistent(enc, g, b) && View(a, g) == View(b, g)
  {
    hide HoldsWhatItIsNamedFor, NameMatches, NormalDir, StagedDir, ManifestPath, Manifest.Valid, StemMatches;
    assert ReadManifest(a, g) == ReadManifest(b, g);
    assert NormalObjects(a, g) == NormalObjects(b, g);
    var m := ReadManifest(a, g).value;
    assert m.Some? ==> forall p <- m.value.active :: GroupObject(g, p);
  }

  /** A run never changes what a separate partition holds, whatever that partition is. */
  lemma SeparatePartitionUndisturbed(enc: Encoder, q: Request, h: seq<Store>, other: Group)
    requires IsRun(enc, q, h) && Consistent(enc, q.group, h[0]) && Separate(q.group, other)
    ensures AgreeOn(other, h[0], h[|h| - 1])
  {
    forall p | GroupObject(other, p) || p == ManifestPath(other)
      ensures (p in h[0] <==> p in h[|h| - 1]) && (p in h[0] ==> h[0][p] == h[|h| - 1][p])
    {
      RunTouchesOnlyItsGroup(enc, q, h, |h| - 1, p);
    }
  }

  /** Where the directories of a partition can be told apart. */
  lemma Coordinates(g: Group)
    requires ValidGroup(g)
    ensures var n := |g.base|;
            && NormalDir(g)[n] == g.dataset && NormalDir(g)[n + 1..] == g.hour
            && StagedDir(g)[n] == OBJECT_PREFIX && StagedDir(g)[n + 1] == g.dataset && StagedDir(g)[n + 2..] == g.hour
            && ManifestPath(g)[n] == MANIFEST_PREFIX && ManifestPath(g)[n + 1] == g.dataset
            && ManifestPath(g)[n + 2..] == g.hour + [g.asset + ".json"]
  {
  }

  /** Two directories of one length that both hold an object are the same directory. */
  lemma SameDirectory(a: Path, b: Path, p: Path)
    requires |a| == |b| && Under(a, p) && Under(b, p)
    ensures a == b
  {
    assert p[..|a|] == a && p[..|b|] == b;
  }

  lemma ObjectsAreSeparate(a: Group, b: Group, p: Path)
    requires ValidGroup(a) && ValidGroup(b) && a.base == b.base && |a.hour| == |b.hour| && a != b
    requires a.asset != b.asset ==> a.asset != Reencode(b.asset) && b.asset != Reencode(a.asset)
    requires GroupObject(a, p)
    ensures p != ManifestPath(b) && !GroupObject(b, p)
  {
    hide NormalDir, StagedDir, ManifestPath, Reencode, FileAssetKey;
    var n := |a.base|;
    Coordinates(a);
    Coordinates(b);
    DirectoryPrefix(a, p);
    if GroupObject(b, p) {
      DirectoryPrefix(b, p);
      if NormalObject(a, p) {
        SameDirectory(NormalDir(a), NormalDir(b), p);
      } else {
        SameDirectory(StagedDir(a), StagedDir(b), p);
      }
      if Reencode(a.asset) == Reencode(b.asset) {
        ReencodeInjective(a.asset, b.asset);
      }
    }
  }

  /** An object's component after the base path tells which directory it is in. */
  lemma DirectoryPrefix(g: Group, p: Path)
    requires ValidGroup(g) && GroupObject(g, p)
    ensures |p| > |g.base| && |NormalDir(g)| == |g.base| + 1 + |g.hour| && |StagedDir(g)| == |g.base| + 2 + |g.hour|
    ensures NormalObject(g, p) ==> p[|g.base|] == g.dataset
    ensures StagedObject(g, p) ==> p[|g.base|] == OBJECT_PREFIX
  {
    hide NameMatches;
    Coordinates(g);
  }

  /** Under one base and with hours of one length, distinct unambiguous partitions are separate. */
  lemma DistinctPartitionsAreSeparate(a: Group, b: Group)
    requires ValidGroup(a) && ValidGroup(b) && a.base == b.base && |a.hour| == |b.hour| && a != b
    requires a.asset != b.asset ==> a.asset != Reencode(b.asset) && b.asset != Reencode(a.asset)
    ensures Separate(a, b)
  {
    hide GroupObject, ManifestPath;
    forall p | GroupObject(a, p) ensures p != ManifestPath(b) && !GroupObject(b, p) {
      ObjectsAreSeparate(a, b, p);
    }
    forall p | GroupObject(b, p) ensures p != ManifestPath(a) {
      ObjectsAreSeparate(b, a, p);
    }
    if ManifestPath(a) == ManifestPath(b) {
      Coordinates(a);
      Coordinates(b);
      var ta, tb := a.hour + [a.asset + ".json"], b.hour + [b.asset + ".json"];
      assert ta[..|a.hour|] == a.hour && tb[..|b.hour|] == b.hour && ta[|a.hour|] == tb[|b.hour|];
      StripSuffixOf(a.asset, ".json");
      StripSuffixOf(b.asset, ".json");
    }
  }

  // ---------------------------------------------------------------------------------------------
  // Convergence
  // ---------------------------------------------------------------------------------------------

  /** All objects of a partition, visible or hidden. */
  function Objects(s: Store, g: Group): set<Path> {
    NormalObjects(s, g) + StagedObjects(s, g)
  }

  lemma OnlyGroupObjects(s: Store, g: Group)
    ensures forall p <- Objects(s, g) :: p in s && GroupObject(g, p)
  {
  }

  lemma KnownObjectsInShape(enc: Encoder, q: Request, start: Store, t: nat, s: Store)
    requires ValidRequest(q) && t >= 4 && Shape(enc, q, start, t, s)
    ensures RecoveredPath(enc, q) in s
    ensures forall p <- s | GroupObject(q.group, p) ::
            p in FinalManifest(enc, q, start).superseded + {RecoveredPath(enc, q)}
  {
    hide ReadManifest, NameMatches, NormalDir, StagedDir, StagedPath, RecoveredPath, ManifestPath, ValidGroup;
  }

  /** What a finished run leaves of its partition: the promoted object, and superseded ones not yet deleted. */
  lemma FinishedRunLeaves(enc: Encoder, q: Request, h: seq<Store>)
    requires IsRun(enc, q, h) && |h| > 4 && Consistent(enc, q.group, h[0])
    ensures var last := h[|h| - 1];
            && RecoveredPath(enc, q) in NormalObjects(last, q.group)
            && Objects(last, q.group) <= {RecoveredPath(enc, q)}
               + Leftover(FinalManifest(enc, q, h[0]).superseded, last)
  {
    var last := h[|h| - 1];
    NewPathsBelong(enc, q);
    ShapeHolds(enc, q, h, |h| - 1);
    hide Step, Consistent, Shape, FinalManifest, GroupObject, RecoveredPath, NormalObject;
    KnownObjectsInShape(enc, q, h[0], |h| - 1, last);
    OnlyGroupObjects(last, q.group);
  }

  /** The superseded objects that still exist. */
  function Leftover(superseded: set<Path>, s: Store): set<Path> {
    set p | p in superseded && p in s
  }

  /** A clean run leaves one normal object and nothing under the hidden prefix. */
  lemma CleanRunLeavesOneObject(enc: Encoder, q: Request, h: seq<Store>)
    requires CompletedCleanly(enc, q, h) && Consistent(enc, q.group, h[0])
    ensures var last := h[|h| - 1];
            NormalObjects(last, q.group) == {RecoveredPath(enc, q)} && StagedObjects(last, q.group) == {}
  {
    hide Step, Consistent, FinalManifest, RecoveredPath, NormalObject, StagedObject;
    var last := h[|h| - 1];
    FinishedRunLeaves(enc, q, h);
    assert Leftover(FinalManifest(enc, q, h[0]).superseded, last) == {};
    PathsAreSeparate(q.group, RecoveredPath(enc, q));
    assert forall p <- StagedObjects(last, q.group) :: StagedObject(q.group, p);
    assert NormalObject(q.group, RecoveredPath(enc, q));
  }

  /** The second run would publish the manifest that is already there. */
  lemma SecondManifestIsIdentical(enc: Encoder, q: Request, h: seq<Store>)
    requires CompletedCleanly(enc, q, h) && Consistent(enc, q.group, h[0])
    ensures FinalManifest(enc, q, h[|h| - 1]) == FinalManifest(enc, q, h[0])
  {
    var mid := h[|h| - 1];
    CleanRunLeavesOneObject(enc, q, h);
    ManifestAt(enc, q, h, |h| - 1);
    assert FinalManifest(enc, q, mid).superseded == FinalManifest(enc, q, h[0]).superseded;
  }

  /** Repeating a clean run with the same request reproduces the same store, manifest included. */
  lemma SecondRunIsIdentical(enc: Encoder, q: Request, h: seq<Store>, again: seq<Store>)
    requires CollisionFree(enc)
    requires CompletedCleanly(enc, q, h) && Consistent(enc, q.group, h[0])
    requires CompletedCleanly(enc, q, again) && again[0] == h[|h| - 1]
    ensures again[|again| - 1] == h[|h| - 1]
  {
    var mid, end := h[|h| - 1], again[|again| - 1];
    assert Consistent(enc, q.group, mid) by {
      ConsistentThroughout(enc, q, h, |h| - 1);
    }
    assert FinalManifest(enc, q, mid) == FinalManifest(enc, q, h[0]) by {
      SecondManifestIsIdentical(enc, q, h);
    }
    forall p ensures SamePath(end, mid, p) {
      SecondRunSamePath(enc, q, h, again, p);
    }
    SamePathsSameStore(end, mid);
  }

  lemma SamePathsSameStore(a: Store, b: Store)
    requires forall p :: SamePath(a, b, p)
    ensures a == b
  {
    forall p ensures (p in a <==> p in b) && (p in a ==> a[p] == b[p]) {
      assert SamePath(a, b, p);
    }
  }

  ghost predicate SamePath(a: Store, b: Store, p: Path) {
    (p in a <==> p in b) && (p in a ==> a[p] == b[p])
  }

  lemma SecondRunSamePath(enc: Encoder, q: Request, h: seq<Store>, again: seq<Store>, p: Path)
    requires CompletedCleanly(enc, q, h) && Consistent(enc, q.group, h[0])
    requires CompletedCleanly(enc, q, again) && again[0] == h[|h| - 1] && Consistent(enc, q.group, again[0])
    requires FinalManifest(enc, q, again[0]) == FinalManifest(enc, q, h[0])
    ensures SamePath(again[|again| - 1], h[|h| - 1], p)
  {
    ShapeHolds(enc, q, h, |h| - 1);
    ShapeHolds(enc, q, again, |again| - 1);
    if GroupObject(q.group, p) {
      CleanRunLeavesOneObject(enc, q, h);
      CleanRunLeavesOneObject(enc, q, again);
      OnlyObject(h[|h| - 1], q.group, p);
      OnlyObject(again[|again| - 1], q.group, p);
    }
  }

  lemma OnlyObject(s: Store, g: Group, p: Path)
    requires GroupObject(g, p)
    ensures p in s <==> p in NormalObjects(s, g) + StagedObjects(s, g)
  {
  }

  /** The manifest in force names the object, as active or as superseded. */
  ghost predicate Remembers(g: Group, s: Store, p: Path) {
    var m := ReadManifest(s, g);
    m.Ok? && m.value.Some? && p in m.value.value.active + m.value.value.superseded
  }

  /** A run, cut anywhere, forgets no object that the manifest before it named. */
  lemma RunRemembers(enc: Encoder, q: Request, h: seq<Store>, p: Path)
    requires IsRun(enc, q, h) && Consistent(enc, q.group, h[0]) && Remembers(q.group, h[0], p)
    ensures Remembers(q.group, h[|h| - 1], p)
  {
    hide Consistent, Step;
    ManifestAt(enc, q, h, |h| - 1);
  }

  lemma {:induction false} ChainRemembers(enc: Encoder, g: Group, start: Store, runs: seq<Run>, p: Path)
    requires CollisionFree(enc) && ValidGroup(g) && Consistent(enc, g, start) && IsChain(enc, g, start, runs)
    requires Remembers(g, start, p)
    ensures Remembers(g, EndOf(start, runs), p)
  {
    hide Consistent, Remembers, View, FullyGoverned, ValidGroup;
    if |runs| > 0 {
      var init, last := runs[..|runs| - 1], runs[|runs| - 1];
      forall i | 0 <= i < |init| ensures init[..i] == runs[..i] {}
      AnyRunsLastPublishedWins(enc, g, start, init);
      ChainRemembers(enc, g, start, init, p);
      RunRemembers(enc, last.request, last.history, p);
    }
  }

  /** Once its staged manifest is published, a run's replaced objects are remembered. */
  lemma ReplacedAreRemembered(enc: Encoder, q: Request, h: seq<Store>)
    requires IsRun(enc, q, h) && |h| >= PUBLISHED && Consistent(enc, q.group, h[0])
    ensures forall p <- FinalManifest(enc, q, h[0]).superseded :: Remembers(q.group, h[|h| - 1], p)
  {
    hide Consistent, Step;
    ManifestAt(enc, q, h, |h| - 1);
  }

  /** A run supersedes whatever the manifest before it named, except what it makes active itself. */
  lemma RememberedIsSuperseded(enc: Encoder, q: Request, start: Store, p: Path)
    requires ValidRequest(q) && Remembers(q.group, start, p)
    ensures p in FinalManifest(enc, q, start).superseded + {RecoveredPath(enc, q)}
  {
    hide ReadManifest, RecoveredPath, StagedPath, NormalObjects, StagedObjects;
  }

  /**
   Whatever a published run did not delete, because it was cut or a delete failed, is in the superseded
   set of every later run on the partition, after any number of runs in between, each cut anywhere; the
   one exception is an object that the later run makes active. So its deletion is always retried.
   */
  lemma FailedDeletesAreRetried(enc: Encoder, q: Request, h: seq<Store>, runs: seq<Run>, next: Request)
    requires CollisionFree(enc) && IsRun(enc, q, h) && |h| >= PUBLISHED && Consistent(enc, q.group, h[0])
    requires IsChain(enc, q.group, h[|h| - 1], runs) && ValidRequest(next) && next.group == q.group
    ensures FinalManifest(enc, q, h[0]).superseded
            <= FinalManifest(enc, next, EndOf(h[|h| - 1], runs)).superseded + {RecoveredPath(enc, next)}
  {
    hide Step, Consistent, IsChain, EndOf, Remembers, FinalManifest, RecoveredPath;
    var start := h[|h| - 1];
    ConsistentThroughout(enc, q, h, |h| - 1);
    ReplacedAreRemembered(enc, q, h);
    forall p <- FinalManifest(enc, q, h[0]).superseded
      ensures p in FinalManifest(enc, next, EndOf(start, runs)).superseded + {RecoveredPath(enc, next)}
    {
      ChainRemembers(enc, q.group, start, runs, p);
      RememberedIsSuperseded(enc, next, EndOf(start, runs), p);
    }
  }

  lemma OneOperationMore(enc: Encoder, q: Request, h: seq<Store>, next: Store)
    requires IsRun(enc, q, h) && Step(enc, q, h[0], |h| - 1, h[|h| - 1], next)
    ensures IsRun(enc, q, h + [next])
  {
    hide Step, ValidRequest;
    assert (h + [next])[..|h|] == h;
  }

  /** Deletes remaining objects one by one. */
  lemma {:induction false} DeletesCanFinish(enc: Encoder, q: Request, h: seq<Store>, todo: set<Path>)
    returns (all: seq<Store>)
    requires IsRun(enc, q, h) && |h| > 4 && todo <= FinalManifest(enc, q, h[0]).superseded
    ensures IsRun(enc, q, all) && |all| > 4 && all[0] == h[0] && all[|all| - 1] == h[|h| - 1] - todo
    decreases |todo|
  {
    hide IsRun, FinalManifest;
    if todo == {} {
      all := h;
    } else {
      var p :| p in todo;
      var next := h[|h| - 1] - {p};
      OneOperationMore(enc, q, h, next);
      all := DeletesCanFinish(enc, q, h + [next], todo - {p});
      assert next - (todo - {p}) == h[|h| - 1] - todo;
    }
  }

  /** From every state, a crashed run's included, a clean and complete run exists. */
  lemma CleanRunExists(enc: Encoder, q: Request, start: Store) returns (h: seq<Store>)
    requires ValidRequest(q)
    ensures CompletedCleanly(enc, q, h) && h[0] == start
  {
    h := [start];
    var s1 := start[StagedPath(enc, q) := Parquet(q.rows)];
    var s2 := s1[ManifestPath(q.group) := ManifestDoc(StagedManifest(enc, q, start))];
    var s3 := s2[RecoveredPath(enc, q) := Parquet(q.rows)];
    var s4 := s3[ManifestPath(q.group) := ManifestDoc(FinalManifest(enc, q, start))];
    assert IsRun(enc, q, h);
    hide IsRun, StagedPath, RecoveredPath, ManifestPath, StagedManifest, FinalManifest;
    OneOperationMore(enc, q, h, s1);
    OneOperationMore(enc, q, h + [s1], s2);
    OneOperationMore(enc, q, h + [s1] + [s2], s3);
    OneOperationMore(enc, q, h + [s1] + [s2] + [s3], s4);
    h := DeletesCanFinish(enc, q, h + [s1] + [s2] + [s3] + [s4], FinalManifest(enc, q, start).superseded);
  }

  /** Rows that a completed run replaced lie under a name which its manifest supersedes. */
  lemma ReplacedNameIsSuperseded(enc: Encoder, q: Request, h: seq<Store>, rows: seq<PersistedRecord>)
    requires CollisionFree(enc) && CompletedCleanly(enc, q, h) && Consistent(enc, q.group, h[0])
    requires |rows| > 0 && rows != q.rows && LivePath(enc, q.group, rows) in h[0]
    ensures var m := ReadManifest(h[|h| - 1], q.group);
            m.Ok? && m.value.Some? && LivePath(enc, q.group, rows) in m.value.value.superseded
    ensures LivePath(enc, q.group, rows) !in h[|h| - 1]
  {
    ManifestAt(enc, q, h, |h| - 1);
    LivePathBelongs(enc, q.group, rows);
    hide IsRun, Consistent, NormalObject, ReadManifest, FileName, CollisionFree;
    if LivePath(enc, q.group, rows) == RecoveredPath(enc, q) {
      LastComponent(NormalDir(q.group), FileName(enc, q.group, rows));
      LastComponent(NormalDir(q.group), FileName(enc, q.group, q.rows));
      SameNameSameRows(enc, q.group, rows, q.rows);
    }
  }

  lemma LastComponent(dir: Path, name: string)
    ensures (dir + [name])[|dir|] == name
  {
  }

  /**
   A live write can indeed be lost to readers: rows that a recovery run replaced by others are written
   again, under the very name which the run's manifest supersedes, and no file of the view holds them.
   */
  lemma LiveWriteCanBeHidden(enc: Encoder, q: Request, rows: seq<PersistedRecord>) returns (store: Store)
    requires CollisionFree(enc) && ValidRequest(q) && |rows| > 0 && rows != q.rows
    ensures Consistent(enc, q.group, store) && LivePath(enc, q.group, rows) !in store
    ensures var view := View(store[LivePath(enc, q.group, rows) := Parquet(rows)], q.group);
            view == View(store, q.group) && forall p <- view :: view[p] == q.rows
  {
    var g, empty: Store := q.group, map[];
    EmptyPartitionConsistent(enc, g, empty);
    hide IsRun, Consistent, View, ReadManifest, LivePath;
    LiveWriteVisibleIff(enc, g, empty, rows);
    var start := empty[LivePath(enc, g, rows) := Parquet(rows)];
    var h := CleanRunExists(enc, q, start);
    store := h[|h| - 1];
    ConsistentThroughout(enc, q, h, |h| - 1);
    CutAfterPublication(enc, q, h);
    ReplacedNameIsSuperseded(enc, q, h, rows);
    LiveWriteVisibleIff(enc, g, store, rows);
  }
}
