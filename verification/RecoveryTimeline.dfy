/**
 The states of a partition under any number of recovery runs, one after another and each cut anywhere: what
 a listing taken at one time and a manifest fetched later resolve to.
 */
module RecoveryTimeline {
  import opened Types
  import opened Bags
  import opened StorageKeys
  import opened RecoveryProtocol

  /** All states from the start on, run by run. */
  ghost function Timeline(start: Store, runs: seq<Run>): (t: seq<Store>)
    ensures |t| > 0
  {
    if |runs| == 0 then [start]
    else
      var last := runs[|runs| - 1];
      Timeline(start, runs[..|runs| - 1]) + if |last.history| == 0 then [] else last.history[1..]
  }

  /** The position at which a run starts. */
  ghost function Offset(start: Store, runs: seq<Run>, i: nat): nat
    requires i <= |runs|
  {
    |Timeline(start, runs[..i])| - 1
  }

  /** The position right after a run published its final manifest. */
  ghost function FinalAt(start: Store, runs: seq<Run>, i: nat): nat
    requires i < |runs|
  {
    Offset(start, runs, i) + 4
  }

  lemma ChainInit(enc: Encoder, g: Group, start: Store, runs: seq<Run>)
    requires IsChain(enc, g, start, runs) && |runs| > 0
    ensures var init, last := runs[..|runs| - 1], runs[|runs| - 1];
            && IsChain(enc, g, start, init) && IsRun(enc, last.request, last.history) && last.request.group == g
            && last.history[0] == EndOf(start, init)
  {
    var init := runs[..|runs| - 1];
    forall i | 0 <= i < |init| ensures init[..i] == runs[..i] {}
  }

  lemma TimelineEnd(enc: Encoder, g: Group, start: Store, runs: seq<Run>)
    requires IsChain(enc, g, start, runs)
    ensures var t := Timeline(start, runs); t[|t| - 1] == EndOf(start, runs)
  {
    hide IsRun;
    if |runs| > 0 {
      ChainInit(enc, g, start, runs);
      TimelineEnd(enc, g, start, runs[..|runs| - 1]);
    }
  }

  lemma TimelineStep(enc: Encoder, g: Group, start: Store, runs: seq<Run>)
    requires IsChain(enc, g, start, runs) && |runs| > 0
    ensures var init, h := Timeline(start, runs[..|runs| - 1]), runs[|runs| - 1].history;
            && |h| > 0 && Timeline(start, runs) == init + h[1..] && init[|init| - 1] == h[0]
            && Offset(start, runs, |runs| - 1) == |init| - 1
  {
    hide IsRun, IsChain, EndOf;
    ChainInit(enc, g, start, runs);
    TimelineEnd(enc, g, start, runs[..|runs| - 1]);
    RunIsValid(enc, runs[|runs| - 1].request, runs[|runs| - 1].history);
  }

  /** The last run's states lie where its offset says. */
  lemma LastRunOnTimeline(enc: Encoder, g: Group, start: Store, runs: seq<Run>, k: nat)
    requires IsChain(enc, g, start, runs) && |runs| > 0 && k < |runs[|runs| - 1].history|
    ensures var t, o := Timeline(start, runs), Offset(start, runs, |runs| - 1);
            && o + k < |t| == o + |runs[|runs| - 1].history| && t[o + k] == runs[|runs| - 1].history[k]
  {
    hide IsChain, Timeline, Offset;
    TimelineStep(enc, g, start, runs);
    AtJoint(Timeline(start, runs[..|runs| - 1]), runs[|runs| - 1].history, k);
  }

  lemma AtJoint<T>(a: seq<T>, b: seq<T>, k: nat)
    requires |a| > 0 && k < |b| && a[|a| - 1] == b[0]
    ensures var all := a + b[1..]; |all| == |a| - 1 + |b| && all[|a| - 1 + k] == b[k]
  {
  }

  lemma EarlierOnTimeline(start: Store, runs: seq<Run>, i: nat)
    requires |runs| > 0 && i <= Offset(start, runs, |runs| - 1)
    ensures i < |Timeline(start, runs[..|runs| - 1])| <= |Timeline(start, runs)|
    ensures Timeline(start, runs)[i] == Timeline(start, runs[..|runs| - 1])[i]
  {
  }

  // ---------------------------------------------------------------------------------------------
  // What any later state keeps
  // ---------------------------------------------------------------------------------------------

  /** The manifest is readable, and everything a reader may select is rows and exists. */
  ghost predicate Readable(g: Group, s: Store) {
    && ReadManifest(s, g).Ok?
    && (forall p <- s | GroupObject(g, p) :: s[p].Parquet?)
    && (ReadManifest(s, g).value.Some? ==> ReadManifest(s, g).value.value.active <= s.Keys)
  }

  /** The object carries the generated name of the rows it holds. */
  ghost predicate Generated(enc: Encoder, g: Group, p: Path, content: StoreObject) {
    exists rows :: |rows| > 0 && |p| > 0 && p[|p| - 1] == FileName(enc, g, rows) && content == Parquet(rows)
  }

  /** The later manifest names whatever the earlier one named. */
  ghost predicate NamesKept(g: Group, s: Store, s': Store) {
    forall p | Remembers(g, s, p) :: Remembers(g, s', p)
  }

  /** Normal objects that appeared or vanished are named by the later manifest. */
  ghost predicate ChangesNamed(g: Group, s: Store, s': Store) {
    forall p | NormalObject(g, p) && (p in s <==> p !in s') :: Remembers(g, s', p)
  }

  /** Objects that stay keep their content, and new ones hold what they are named for. */
  ghost predicate ContentKept(enc: Encoder, g: Group, s: Store, s': Store) {
    forall p <- s' | GroupObject(g, p) :: if p in s then s'[p] == s[p] else Generated(enc, g, p, s'[p])
  }

  ghost predicate Evolves(enc: Encoder, g: Group, s: Store, s': Store) {
    Readable(g, s') && NamesKept(g, s, s') && ChangesNamed(g, s, s') && ContentKept(enc, g, s, s')
  }

  lemma ContentKeptTwice(enc: Encoder, g: Group, a: Store, b: Store, c: Store)
    requires ContentNamed(enc, g, a) && ContentKept(enc, g, a, b) && ContentKept(enc, g, b, c)
    ensures ContentKept(enc, g, a, c)
  {
    hide GroupObject, FileName;
    forall p <- c | GroupObject(g, p) ensures if p in a then c[p] == a[p] else Generated(enc, g, p, c[p]) {
      if p !in b && p in a {
        var rows :| |rows| > 0 && |p| > 0 && p[|p| - 1] == FileName(enc, g, rows) && c[p] == Parquet(rows);
        assert HoldsWhatItIsNamedFor(enc, g, p, a[p]);
      }
    }
  }

  lemma EvolvesTwice(enc: Encoder, g: Group, a: Store, b: Store, c: Store)
    requires ContentNamed(enc, g, a) && Evolves(enc, g, a, b) && Evolves(enc, g, b, c)
    ensures Evolves(enc, g, a, c)
  {
    hide Remembers, NormalObject, ContentKept, Readable;
    ContentKeptTwice(enc, g, a, b, c);
  }

  // ---------------------------------------------------------------------------------------------
  // Within one run
  // ---------------------------------------------------------------------------------------------

  /** What a run deleted stays deleted, unless it is one of its own two objects. */
  lemma {:induction false} NoReturn(enc: Encoder, q: Request, h: seq<Store>, i: nat, j: nat, p: Path)
    requires IsRun(enc, q, h) && i <= j < |h| && p !in h[i] && GroupObject(q.group, p)
    requires p != StagedPath(enc, q) && p != RecoveredPath(enc, q)
    ensures p !in h[j]
  {
    hide StagedPath, RecoveredPath, GroupObject, StagedManifest, FinalManifest;
    var n := |h| - 1;
    if j < n {
      NoReturn(enc, q, h[..n], i, j, p);
    } else if i < n {
      NoReturn(enc, q, h[..n], i, n - 1, p);
      PathsAreSeparate(q.group, p);
    }
  }

  lemma RunIsValid(enc: Encoder, q: Request, h: seq<Store>)
    requires IsRun(enc, q, h)
    ensures ValidRequest(q) && ValidGroup(q.group) && |q.rows| > 0 && |h| > 0
  {
  }

  lemma ActiveBelong(s: Store, g: Group)
    ensures ReadManifest(s, g).Ok? && ReadManifest(s, g).value.Some? ==>
              forall p <- ReadManifest(s, g).value.value.active :: GroupObject(g, p)
  {
  }

  lemma RunReadable(enc: Encoder, q: Request, h: seq<Store>, t: nat)
    requires IsRun(enc, q, h) && t < |h| && Consistent(enc, q.group, h[0])
    ensures Readable(q.group, h[t])
  {
    RunIsValid(enc, q, h);
    hide ContentNamed, StagedPath, RecoveredPath, NormalObject, StagedObject, IsRun, ReadManifest, ValidGroup;
    ShapeHolds(enc, q, h, t);
    ManifestAt(enc, q, h, t);
    NewPathsBelong(enc, q);
    ActiveBelong(h[0], q.group);
  }

  lemma RunNamesKept(enc: Encoder, q: Request, h: seq<Store>, i: nat, j: nat)
    requires IsRun(enc, q, h) && i <= j < |h| && Consistent(enc, q.group, h[0])
    ensures NamesKept(q.group, h[i], h[j])
  {
    RunIsValid(enc, q, h);
    hide Consistent, StagedPath, RecoveredPath, NormalObjects, StagedObjects, IsRun, ReadManifest, ValidGroup;
    ManifestAt(enc, q, h, i);
    ManifestAt(enc, q, h, j);
  }

  lemma RunChangesNamed(enc: Encoder, q: Request, h: seq<Store>, i: nat, j: nat)
    requires IsRun(enc, q, h) && i <= j < |h| && Consistent(enc, q.group, h[0])
    ensures ChangesNamed(q.group, h[i], h[j])
  {
    RunIsValid(enc, q, h);
    NewPathsBelong(enc, q);
    forall p | NormalObject(q.group, p) && (p in h[i] <==> p !in h[j]) ensures Remembers(q.group, h[j], p) {
      hide Consistent, StagedPath, RecoveredPath, NormalObject, StagedObject, IsRun, ReadManifest, ValidGroup;
      ShapeHolds(enc, q, h, i);
      ShapeHolds(enc, q, h, j);
      ManifestAt(enc, q, h, j);
      PathsAreSeparate(q.group, p);
      if p !in h[i] && p != RecoveredPath(enc, q) {
        NoReturn(enc, q, h, i, j, p);
      }
    }
  }

  lemma RunContentKept(enc: Encoder, q: Request, h: seq<Store>, i: nat, j: nat)
    requires IsRun(enc, q, h) && i <= j < |h| && Consistent(enc, q.group, h[0])
    ensures ContentKept(enc, q.group, h[i], h[j])
  {
    RunIsValid(enc, q, h);
    OwnPathsGenerated(enc, q);
    forall p <- h[j] | GroupObject(q.group, p)
      ensures if p in h[i] then h[j][p] == h[i][p] else Generated(enc, q.group, p, h[j][p])
    {
      hide Consistent, StagedPath, RecoveredPath, NormalObject, StagedObject, IsRun, ReadManifest, ValidGroup,
        Generated;
      ShapeHolds(enc, q, h, i);
      ShapeHolds(enc, q, h, j);
      if p !in h[i] && p != RecoveredPath(enc, q) && p != StagedPath(enc, q) {
        NoReturn(enc, q, h, i, j, p);
      }
    }
  }

  lemma OwnPathsGenerated(enc: Encoder, q: Request)
    requires ValidRequest(q)
    ensures Generated(enc, q.group, StagedPath(enc, q), Parquet(q.rows))
    ensures Generated(enc, q.group, RecoveredPath(enc, q), Parquet(q.rows))
  {
    LastComponent(StagedDir(q.group), FileName(enc, q.group, q.rows));
    LastComponent(NormalDir(q.group), FileName(enc, q.group, q.rows));
  }

  lemma RunEvolves(enc: Encoder, q: Request, h: seq<Store>, i: nat, j: nat)
    requires IsRun(enc, q, h) && i <= j < |h| && Consistent(enc, q.group, h[0])
    ensures Evolves(enc, q.group, h[i], h[j])
  {
    hide Consistent, IsRun, Readable, NamesKept, ChangesNamed, ContentKept;
    RunReadable(enc, q, h, j);
    RunNamesKept(enc, q, h, i, j);
    RunChangesNamed(enc, q, h, i, j);
    RunContentKept(enc, q, h, i, j);
  }

  // ---------------------------------------------------------------------------------------------
  // On the whole timeline
  // ---------------------------------------------------------------------------------------------

  /** What a chain is built on: with more than one run, names determine rows. */
  ghost predicate Chained(enc: Encoder, g: Group, start: Store, runs: seq<Run>) {
    && ValidGroup(g) && Consistent(enc, g, start) && IsChain(enc, g, start, runs)
    && (|runs| > 1 ==> CollisionFree(enc))
  }

  lemma ChainedInit(enc: Encoder, g: Group, start: Store, runs: seq<Run>)
    requires Chained(enc, g, start, runs) && |runs| > 0
    ensures var init, last := runs[..|runs| - 1], runs[|runs| - 1];
            && Chained(enc, g, start, init) && IsRun(enc, last.request, last.history) && last.request.group == g
            && last.history[0] == EndOf(start, init) && Consistent(enc, g, last.history[0])
  {
    hide IsRun, Consistent, CollisionFree, View, FullyGoverned, ValidGroup;
    var init := runs[..|runs| - 1];
    ChainInit(enc, g, start, runs);
    if |init| > 0 {
      AnyRunsLastPublishedWins(enc, g, start, init);
    }
  }

  lemma {:induction false} TimelineConsistent(enc: Encoder, g: Group, start: Store, runs: seq<Run>, i: nat)
    requires Chained(enc, g, start, runs) && CollisionFree(enc) && i < |Timeline(start, runs)|
    ensures Consistent(enc, g, Timeline(start, runs)[i])
  {
    hide IsRun, Consistent, CollisionFree, IsChain, ValidGroup;
    if |runs| > 0 {
      var init, last := runs[..|runs| - 1], runs[|runs| - 1];
      ChainedInit(enc, g, start, runs);
      var o := Offset(start, runs, |init|);
      if i <= o {
        EarlierOnTimeline(start, runs, i);
        TimelineConsistent(enc, g, start, init, i);
      } else {
        LastRunSpans(enc, g, start, runs, i);
        LastRunOnTimeline(enc, g, start, runs, i - o);
        ConsistentThroughout(enc, last.request, last.history, i - o);
      }
    }
  }

  lemma LastRunSpans(enc: Encoder, g: Group, start: Store, runs: seq<Run>, i: nat)
    requires IsChain(enc, g, start, runs) && |runs| > 0
    requires Offset(start, runs, |runs| - 1) <= i < |Timeline(start, runs)|
    ensures i - Offset(start, runs, |runs| - 1) < |runs[|runs| - 1].history|
  {
    hide IsRun;
    ChainInit(enc, g, start, runs);
    RunIsValid(enc, runs[|runs| - 1].request, runs[|runs| - 1].history);
  }

  /** Whatever runs come in between, cut wherever, a later state keeps what an earlier one named and held. */
  lemma {:induction false} TimelineEvolves(enc: Encoder, g: Group, start: Store, runs: seq<Run>, i: nat, j: nat)
    requires Chained(enc, g, start, runs) && i <= j < |Timeline(start, runs)|
    ensures Evolves(enc, g, Timeline(start, runs)[i], Timeline(start, runs)[j])
  {
    hide IsRun, Consistent, CollisionFree, IsChain, ValidGroup, Evolves;
    if |runs| == 0 {
      StartEvolves(enc, g, start);
    } else {
      var init, last := runs[..|runs| - 1], runs[|runs| - 1];
      var o := Offset(start, runs, |init|);
      ChainedInit(enc, g, start, runs);
      if j <= o {
        EarlierOnTimeline(start, runs, i);
        EarlierOnTimeline(start, runs, j);
        TimelineEvolves(enc, g, start, init, i, j);
      } else {
        LastRunSpans(enc, g, start, runs, j);
        LastRunOnTimeline(enc, g, start, runs, j - o);
        if o <= i {
          LastRunOnTimeline(enc, g, start, runs, i - o);
          RunEvolves(enc, last.request, last.history, i - o, j - o);
        } else {
          EarlierOnTimeline(start, runs, i);
          EarlierOnTimeline(start, runs, o);
          LastRunOnTimeline(enc, g, start, runs, 0);
          TimelineEvolves(enc, g, start, init, i, o);
          RunEvolves(enc, last.request, last.history, 0, j - o);
          TwoRuns(enc, g, start, runs);
          TimelineConsistent(enc, g, start, runs, i);
          NamedContent(enc, g, Timeline(start, runs)[i]);
          EvolvesTwice(enc, g, Timeline(start, runs)[i], last.history[0], last.history[j - o]);
        }
      }
    }
  }

  lemma StartEvolves(enc: Encoder, g: Group, s: Store)
    requires ValidGroup(g) && Consistent(enc, g, s)
    ensures Evolves(enc, g, s, s)
  {
    hide Remembers, NormalObject, ContentNamed;
  }

  lemma NamedContent(enc: Encoder, g: Group, s: Store)
    requires Consistent(enc, g, s)
    ensures ContentNamed(enc, g, s)
  {
  }

  lemma TwoRuns(enc: Encoder, g: Group, start: Store, runs: seq<Run>)
    requires Chained(enc, g, start, runs) && |runs| > 0 && Offset(start, runs, |runs| - 1) > 0
    ensures CollisionFree(enc)
  {
    hide CollisionFree, IsChain, Consistent, ValidGroup;
  }

  // ---------------------------------------------------------------------------------------------
  // What a reader resolves and reads
  // ---------------------------------------------------------------------------------------------

  /** A listing taken earlier and a manifest fetched now resolve to the files of now. */
  lemma ResolvedLater(enc: Encoder, g: Group, s: Store, s': Store)
    requires Evolves(enc, g, s, s')
    ensures Resolve(NormalObjects(s, g), ReadManifest(s', g).value) == Files(s', g)
  {
    hide NormalObject, ReadManifest, ContentKept;
    var m := ReadManifest(s', g).value;
    forall p ensures p in Resolve(NormalObjects(s, g), m) <==> p in Files(s', g) {
      if NormalObject(g, p) && (p in s <==> p !in s') {
        assert Remembers(g, s', p);
      }
    }
  }

  /** The view of a state is complete, and what it selects holds its rows in every later state that has it. */
  lemma ServedLater(enc: Encoder, g: Group, s: Store, s': Store, p: Path)
    requires ValidGroup(g) && Readable(g, s) && ContentKept(enc, g, s, s') && p in Files(s, g)
    ensures p in View(s, g) && p in s && (p in s' ==> s'[p] == Parquet(View(s, g)[p]))
  {
    FilesAreGroupObjects(s, g);
    hide ReadManifest, GroupObject, NormalObject;
  }

  lemma FilesOfRun(enc: Encoder, q: Request, h: seq<Store>, k0: nat, k: nat, p: Path)
    requires IsRun(enc, q, h) && k0 <= k < |h| && Consistent(enc, q.group, h[0])
    requires ReadManifest(h[k0], q.group).Ok? && p in Files(h[k0], q.group) && p !in h[k]
    ensures k0 < 4 < k
  {
    ResolvedDuringRun(enc, q, h, k0, k0);
    FileDuringRun(enc, q, h, k0, k, p);
  }

  lemma VanishedLate(enc: Encoder, q: Request, h: seq<Store>, k: nat, p: Path)
    requires IsRun(enc, q, h) && k < |h| && Consistent(enc, q.group, h[0]) && p in h[0] && p !in h[k]
    ensures 4 < k
  {
    hide Consistent, IsRun, StagedPath, RecoveredPath, ReadManifest;
    ShapeHolds(enc, q, h, k);
  }

  /** Between the two times a run published its final manifest. */
  ghost predicate FinalBetween(start: Store, runs: seq<Run>, i: nat, from: nat, until: nat) {
    i < |runs| && |runs[i].history| > 4 && from < FinalAt(start, runs, i) < until
  }

  lemma FinalOfInit(start: Store, runs: seq<Run>, i: nat, from: nat, until: nat, until': nat)
    requires |runs| > 0 && FinalBetween(start, runs[..|runs| - 1], i, from, until') && until' <= until
    ensures FinalBetween(start, runs, i, from, until)
  {
    assert runs[..|runs| - 1][..i] == runs[..i];
  }

  lemma SomeRun(start: Store, runs: seq<Run>, from: nat, until: nat)
    requires from < |Timeline(start, runs)| && until < |Timeline(start, runs)|
    requires Timeline(start, runs)[from] != Timeline(start, runs)[until]
    ensures |runs| > 0
  {
  }

  lemma FinalOfLast(start: Store, runs: seq<Run>, from: nat, k: nat)
    requires |runs| > 0 && 4 < k < |runs[|runs| - 1].history| && from < Offset(start, runs, |runs| - 1) + 4
    ensures FinalBetween(start, runs, |runs| - 1, from, Offset(start, runs, |runs| - 1) + k)
  {
    hide Offset;
  }

  /** A selected file disappears only if meanwhile a run has published its final manifest. */
  lemma {:induction false} VanishedMeansFinal(enc: Encoder, g: Group, start: Store, runs: seq<Run>, from: nat,
                                              until: nat,
                                              p: Path) returns (i: nat)
    requires Chained(enc, g, start, runs) && from <= until < |Timeline(start, runs)|
    requires ReadManifest(Timeline(start, runs)[from], g).Ok? && p in Files(Timeline(start, runs)[from], g)
    requires p in Timeline(start, runs)[from] && p !in Timeline(start, runs)[until]
    ensures FinalBetween(start, runs, i, from, until)
  {
    hide IsRun, Consistent, CollisionFree, IsChain, ValidGroup, ReadManifest, Files, FinalBetween, Timeline, Offset;
    SomeRun(start, runs, from, until);
    var init, last := runs[..|runs| - 1], runs[|runs| - 1];
    var o := Offset(start, runs, |init|);
    ChainedInit(enc, g, start, runs);
    if until <= o {
      EarlierOnTimeline(start, runs, from);
      EarlierOnTimeline(start, runs, until);
      i := VanishedMeansFinal(enc, g, start, init, from, until, p);
      FinalOfInit(start, runs, i, from, until, until);
    } else {
      LastRunSpans(enc, g, start, runs, until);
      LastRunOnTimeline(enc, g, start, runs, until - o);
      if o <= from {
        i := |init|;
        LastRunOnTimeline(enc, g, start, runs, from - o);
        FilesOfRun(enc, last.request, last.history, from - o, until - o, p);
        FinalOfLast(start, runs, from, until - o);
      } else {
        EarlierOnTimeline(start, runs, from);
        EarlierOnTimeline(start, runs, o);
        LastRunOnTimeline(enc, g, start, runs, 0);
        if p in Timeline(start, runs)[o] {
          i := |init|;
          VanishedLate(enc, last.request, last.history, until - o, p);
          FinalOfLast(start, runs, from, until - o);
        } else {
          i := VanishedMeansFinal(enc, g, start, init, from, o, p);
          FinalOfInit(start, runs, i, from, until, o);
        }
      }
    }
  }

  /** The rows visible in a state. */
  ghost predicate Shows(g: Group, s: Store, rows: multiset<PersistedRecord>) {
    ReadManifest(s, g).Ok? && rows == Bag(View(s, g))
  }

  lemma RunShows(enc: Encoder, q: Request, h: seq<Store>, k: nat)
    requires IsRun(enc, q, h) && k < |h| && Consistent(enc, q.group, h[0])
    ensures ReadManifest(h[k], q.group).Ok?
    ensures k < 2 ==> View(h[k], q.group) == View(h[0], q.group)
    ensures k >= 2 ==> Bag(View(h[k], q.group)) == multiset(q.rows)
  {
    RunPrefix(enc, q, h, k);
    var cut := h[..k + 1];
    hide IsRun, Consistent, View, ReadManifest;
    if k < 2 {
      CutBeforePublication(enc, q, cut);
    } else {
      CutAfterPublication(enc, q, cut);
      var p :| View(cut[k], q.group) == map[p := q.rows];
      BagOfOne(p, q.rows);
    }
  }

  lemma {:induction false} RunPrefix(enc: Encoder, q: Request, h: seq<Store>, k: nat)
    requires IsRun(enc, q, h) && k < |h|
    ensures IsRun(enc, q, h[..k + 1]) && h[..k + 1][0] == h[0]
  {
    hide Step;
    if k + 1 == |h| {
      assert h[..k + 1] == h;
    } else {
      RunPrefix(enc, q, h[..|h| - 1], k);
      assert h[..|h| - 1][..k + 1] == h[..k + 1];
    }
  }

  /** Every state shows the rows that were there at the start, or exactly the rows of one of the runs. */
  lemma {:induction false} StateShows(enc: Encoder, g: Group, start: Store, runs: seq<Run>, t: nat)
    requires Chained(enc, g, start, runs) && t < |Timeline(start, runs)|
    ensures var s := Timeline(start, runs)[t];
            && ReadManifest(s, g).Ok?
            && (Bag(View(s, g)) == Bag(View(start, g))
                || exists i | 0 <= i < |runs| :: Bag(View(s, g)) == multiset(runs[i].request.rows))
  {
    hide IsRun, Consistent, CollisionFree, IsChain, ValidGroup, ReadManifest, View;
    if |runs| == 0 {
      StartReadable(enc, g, start);
    } else {
      var init, last := runs[..|runs| - 1], runs[|runs| - 1];
      var o := Offset(start, runs, |init|);
      ChainedInit(enc, g, start, runs);
      EarlierOnTimeline(start, runs, if t <= o then t else o);
      StateShows(enc, g, start, init, if t <= o then t else o);
      forall i | 0 <= i < |init| ensures init[i] == runs[i] {}
      if t > o {
        LastRunSpans(enc, g, start, runs, t);
        LastRunOnTimeline(enc, g, start, runs, t - o);
        LastRunOnTimeline(enc, g, start, runs, 0);
        RunShows(enc, last.request, last.history, t - o);
      }
    }
  }

  lemma StartReadable(enc: Encoder, g: Group, s: Store)
    requires Consistent(enc, g, s)
    ensures ReadManifest(s, g).Ok?
  {
  }
}
