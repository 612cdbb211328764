/** The buffering Parquet sink: it batches records, flushes with bounded retries, and drains on shutdown. */
module ParquetSink {
  import opened Types
  import opened Bags
  import opened RecoveryProtocol
  import opened ParquetWriter

  const MAX_FLUSH_RETRIES: nat := 5

  /** What the sink's select loop wakes up for; the channel closes when no event is left. */
  datatype SinkEvent =
    | Received(record: PersistedRecord)
    | IntervalTick
    | Cancelled(drained: seq<PersistedRecord>, complete: bool)

  datatype SinkError = FlushFailed(cause: StoreError) | DrainTimedOut

  /** The records the sink takes in: everything received, and what it drains when cancelled. */
  function Inputs(events: seq<SinkEvent>): seq<PersistedRecord> {
    if |events| == 0 then []
    else match events[0]
      case Received(r) => [r] + Inputs(events[1..])
      case IntervalTick => Inputs(events[1..])
      case Cancelled(drained, _) => drained
  }

  /** The sink was cancelled and its drain hit the deadline. */
  predicate Interrupted(events: seq<SinkEvent>) {
    exists i | 0 <= i < |events| :: Incomplete(events[i]) && forall j | 0 <= j < i :: !events[j].Cancelled?
  }

  predicate Incomplete(e: SinkEvent) {
    e.Cancelled? && !e.complete
  }

  /** What one flush writes, if there is anything to write. */
  function Batch(buffer: seq<PersistedRecord>): seq<seq<PersistedRecord>> {
    if |buffer| == 0 then [] else [buffer]
  }

  /** The batches that are flushed from here on. */
  function BatchesFrom(buffer: seq<PersistedRecord>, events: seq<SinkEvent>): seq<seq<PersistedRecord>>
    decreases events
  {
    if |events| == 0 then Batch(buffer)
    else match events[0]
      case Received(r) => BatchesFrom(buffer + [r], events[1..])
      case IntervalTick => Batch(buffer) + BatchesFrom([], events[1..])
      case Cancelled(drained, _) => Batch(buffer + drained)
  }

  function Batches(events: seq<SinkEvent>): seq<seq<PersistedRecord>> {
    BatchesFrom([], events)
  }

  function Flatten(batches: seq<seq<PersistedRecord>>): seq<PersistedRecord> {
    if |batches| == 0 then [] else Flatten(batches[..|batches| - 1]) + batches[|batches| - 1]
  }

  lemma {:induction false} FlattenConcat(a: seq<seq<PersistedRecord>>, b: seq<seq<PersistedRecord>>)
    ensures Flatten(a + b) == Flatten(a) + Flatten(b)
  {
    if |b| == 0 {
      assert a + b == a;
    } else {
      FlattenConcat(a, b[..|b| - 1]);
      assert (a + b)[..|a + b| - 1] == a + b[..|b| - 1];
    }
  }

  lemma FlattenOne(buffer: seq<PersistedRecord>)
    ensures Flatten(Batch(buffer)) == buffer
  {
    if |buffer| > 0 {
      assert [buffer][..0] == [];
    }
  }

  /** The batches hold exactly what the sink takes in, in order. */
  lemma {:induction false} BatchesHoldInputs(buffer: seq<PersistedRecord>, events: seq<SinkEvent>)
    ensures Flatten(BatchesFrom(buffer, events)) == buffer + Inputs(events)
    decreases events
  {
    hide Flatten, Batch;
    FlattenOne(buffer);
    if |events| > 0 {
      var e, rest := events[0], events[1..];
      if e.Received? {
        BatchesHoldInputs(buffer + [e.record], rest);
        assert buffer + ([e.record] + Inputs(rest)) == buffer + [e.record] + Inputs(rest);
      } else if e.IntervalTick? {
        BatchesHoldInputs([], rest);
        FlattenConcat(Batch(buffer), BatchesFrom([], rest));
      } else {
        FlattenOne(buffer + e.drained);
      }
    }
  }

  lemma BatchesOfNone(buffer: seq<PersistedRecord>, events: seq<SinkEvent>)
    requires |events| == 0
    ensures BatchesFrom(buffer, events) == Batch(buffer)
  {
  }

  /** A tick flushes everything received before it: the batches up to it are those of a sink closed there. */
  lemma {:induction false} TickFlushes(buffer: seq<PersistedRecord>, events: seq<SinkEvent>, i: nat)
    requires i < |events| && events[i] == IntervalTick && forall j | 0 <= j < i :: !events[j].Cancelled?
    ensures BatchesFrom(buffer, events) == BatchesFrom(buffer, events[..i]) + BatchesFrom([], events[i + 1..])
    ensures multiset(Flatten(BatchesFrom(buffer, events[..i]))) == multiset(buffer + Inputs(events[..i]))
    decreases i
  {
    hide Inputs, Flatten, Batch;
    BatchesHoldInputs(buffer, events[..i]);
    if i == 0 {
      BatchesOfNone(buffer, events[..0]);
      assert events[1..] == events[i + 1..];
    } else {
      var e, rest := events[0], events[1..];
      assert rest[..i - 1] == events[..i][1..] && rest[i..] == events[i + 1..];
      if e.Received? {
        TickFlushes(buffer + [e.record], rest, i - 1);
      } else {
        TickFlushes([], rest, i - 1);
        assert Batch(buffer) + (BatchesFrom([], rest[..i - 1]) + BatchesFrom([], rest[i..]))
               == Batch(buffer) + BatchesFrom([], rest[..i - 1]) + BatchesFrom([], rest[i..]);
      }
    }
  }

  // ---------------------------------------------------------------------------------------------
  // The groups of the flushed batches
  // ---------------------------------------------------------------------------------------------

  /** One stored group: its partition and its rows, which together determine its object's name. */
  datatype NamedGroup = NamedGroup(key: GroupKey, rows: seq<PersistedRecord>)

  function Names(groups: Groups): set<NamedGroup> {
    set k | k in groups :: NamedGroup(k, groups[k])
  }

  function BatchNames(batch: seq<PersistedRecord>): set<NamedGroup> {
    Names(GroupsOf(batch))
  }

  function AllNames(batches: seq<seq<PersistedRecord>>): set<NamedGroup> {
    if |batches| == 0 then {} else AllNames(batches[..|batches| - 1]) + BatchNames(batches[|batches| - 1])
  }

  /** No two batches contain the same group: same partition, same rows. */
  predicate NoGroupTwice(batches: seq<seq<PersistedRecord>>) {
    forall i, j | 0 <= i < j < |batches| :: BatchNames(batches[i]) !! BatchNames(batches[j])
  }

  function RowsOf(names: set<NamedGroup>): map<NamedGroup, seq<PersistedRecord>> {
    map x | x in names :: x.rows
  }

  /** All rows of a family of groups, each group once. */
  ghost function Content(names: set<NamedGroup>): multiset<PersistedRecord> {
    Bag(RowsOf(names))
  }

  lemma ContentOfOneMore(names: set<NamedGroup>, x: NamedGroup)
    requires x !in names
    ensures Content(names + {x}) == Content(names) + multiset(x.rows)
  {
    hide Bag;
    BagPut(RowsOf(names), x, x.rows);
    assert RowsOf(names + {x}) == RowsOf(names)[x := x.rows];
  }

  lemma NoContent()
    ensures Content({}) == multiset{}
  {
    assert RowsOf({}) == map[];
  }

  lemma {:induction false} ContentOfUnion(a: set<NamedGroup>, b: set<NamedGroup>)
    requires a !! b
    ensures Content(a + b) == Content(a) + Content(b)
    decreases |b|
  {
    hide Content;
    if b == {} {
      assert a + b == a;
      NoContent();
    } else {
      var x :| x in b;
      var rest := b - {x};
      ContentOfUnion(a, rest);
      assert a + b == a + rest + {x} && b == rest + {x};
      ContentOfOneMore(a + rest, x);
      ContentOfOneMore(rest, x);
    }
  }

  lemma OneNameLess(groups: Groups, k: GroupKey)
    requires k in groups
    ensures Names(groups) == Names(groups - {k}) + {NamedGroup(k, groups[k])}
    ensures NamedGroup(k, groups[k]) !in Names(groups - {k})
  {
    forall x | x in Names(groups) && x.key != k ensures x in Names(groups - {k}) {
      assert x.key in groups - {k};
    }
  }

  lemma {:induction false} ContentOfNames(groups: Groups)
    ensures Content(Names(groups)) == Bag(groups)
    decreases |groups|
  {
    hide Content, Names;
    if |groups| == 0 {
      NoNames(groups);
      NoContent();
    } else {
      var k :| k in groups;
      hide Bag;
      BagCount(groups, k);
      BagTake(groups, k);
      ContentOfNames(groups - {k});
      OneNameLess(groups, k);
      ContentOfOneMore(Names(groups - {k}), NamedGroup(k, groups[k]));
    }
  }

  lemma NoNames(groups: Groups)
    requires |groups| == 0
    ensures Names(groups) == {}
  {
  }

  /** Adding a family of groups adds its rows, unless some group was there already. */
  lemma ContentOfSum(a: set<NamedGroup>, b: set<NamedGroup>)
    requires forall x <- b :: |x.rows| > 0
    ensures a !! b ==> Content(a + b) == Content(a) + Content(b)
    ensures |Content(a + b)| <= |Content(a)| + |Content(b)|
    ensures !(a !! b) ==> |Content(a + b)| < |Content(a)| + |Content(b)|
  {
    hide Content;
    var extra, common := b - a, b * a;
    assert a + b == a + extra && b == extra + common;
    ContentOfUnion(a, extra);
    ContentOfUnion(extra, common);
    if !(a !! b) {
      var x :| x in common;
      assert common == common - {x} + {x};
      ContentOfOneMore(common - {x}, x);
      assert |multiset(x.rows)| == |x.rows|;
    } else {
      assert extra == b;
    }
  }

  /** A batch's groups hold exactly the batch. */
  lemma ContentOfBatch(batch: seq<PersistedRecord>)
    ensures Content(BatchNames(batch)) == multiset(batch)
    ensures forall x <- BatchNames(batch) :: |x.rows| > 0 && forall r <- x.rows :: r in batch
  {
    hide Content, Grouped;
    ContentOfNames(GroupsOf(batch));
    GroupingConserves(batch, KeyFor);
    GroupedMembers(batch, KeyFor);
  }

  lemma {:induction false} NamesAreOfBatches(batches: seq<seq<PersistedRecord>>)
    ensures forall x :: x in AllNames(batches) <==> exists i | 0 <= i < |batches| :: x in BatchNames(batches[i])
  {
    hide BatchNames;
    if |batches| > 0 {
      var n := |batches| - 1;
      NamesAreOfBatches(batches[..n]);
      forall x ensures x in AllNames(batches) <==> exists i | 0 <= i < |batches| :: x in BatchNames(batches[i]) {
        if i :| 0 <= i < |batches| && x in BatchNames(batches[i]) {
          if i < n {
            assert x in BatchNames(batches[..n][i]);
          }
        }
        if x in AllNames(batches[..n]) {
          var i :| 0 <= i < n && x in BatchNames(batches[..n][i]);
          assert x in BatchNames(batches[i]);
        }
      }
    }
  }

  /** The last batch repeats a group, or the earlier ones do. */
  lemma TwiceInPrefix(batches: seq<seq<PersistedRecord>>)
    requires |batches| > 0
    ensures var n := |batches| - 1;
            NoGroupTwice(batches) <==> NoGroupTwice(batches[..n]) && AllNames(batches[..n]) !! BatchNames(batches[n])
  {
    hide BatchNames, AllNames;
    var n := |batches| - 1;
    NamesAreOfBatches(batches[..n]);
    if NoGroupTwice(batches) {
      forall x | x in AllNames(batches[..n]) ensures x !in BatchNames(batches[n]) {
        var i :| 0 <= i < n && x in BatchNames(batches[..n][i]);
        assert BatchNames(batches[i]) !! BatchNames(batches[n]);
      }
      assert forall i, j | 0 <= i < j < n :: BatchNames(batches[i]) !! BatchNames(batches[j]);
    } else {
      var i, j :| 0 <= i < j < |batches| && !(BatchNames(batches[i]) !! BatchNames(batches[j]));
      assert batches[..n][i] == batches[i] && (j < n ==> batches[..n][j] == batches[j]);
      var x :| x in BatchNames(batches[i]) && x in BatchNames(batches[j]);
      assert x in BatchNames(batches[..n][i]);
    }
  }

  /**
   Storing each group once stores every record taken in exactly as often as it came if and only if no
   group occurs in two batches; otherwise some records are missing.
   */
  lemma {:induction false} EachGroupOnceIff(batches: seq<seq<PersistedRecord>>)
    ensures NoGroupTwice(batches) ==> Content(AllNames(batches)) == multiset(Flatten(batches))
    ensures !NoGroupTwice(batches) ==> |Content(AllNames(batches))| < |Flatten(batches)|
    ensures |Content(AllNames(batches))| <= |Flatten(batches)|
  {
    if |batches| == 0 {
      NoContent();
    } else {
      hide NoGroupTwice, BatchNames, Content;
      var n := |batches| - 1;
      EachGroupOnceIff(batches[..n]);
      TwiceInPrefix(batches);
      ContentOfBatch(batches[n]);
      ContentOfSum(AllNames(batches[..n]), BatchNames(batches[n]));
      assert |multiset(batches[n])| == |batches[n]|;
    }
  }

  ghost predicate Distinct(records: seq<PersistedRecord>) {
    forall i, j | 0 <= i < j < |records| :: records[i] != records[j]
  }

  lemma {:induction false} DistinctCounts(records: seq<PersistedRecord>, r: PersistedRecord)
    requires Distinct(records)
    ensures multiset(records)[r] <= 1
  {
    if |records| > 0 {
      var n := |records| - 1;
      DistinctCounts(records[..n], r);
      assert records == records[..n] + [records[n]];
      if r == records[n] {
        assert r !in records[..n];
        assert multiset(records[..n])[r] == 0;
      }
    }
  }

  lemma {:induction false} SharedRecordCounts(batches: seq<seq<PersistedRecord>>, i: nat, r: PersistedRecord)
    requires i < |batches| && r in batches[i]
    ensures multiset(Flatten(batches))[r] >= 1
    ensures forall j | i < j < |batches| && r in batches[j] :: multiset(Flatten(batches))[r] >= 2
  {
    var n := |batches| - 1;
    assert r in multiset(batches[i]);
    assert r in batches[n] <==> r in multiset(batches[n]);
    if i < n {
      SharedRecordCounts(batches[..n], i, r);
      assert forall j | i < j < n && r in batches[j] :: r in batches[..n][j];
    }
  }

  /** Pairwise distinct records are enough: then no group occurs twice. */
  lemma DistinctRecordsSuffice(events: seq<SinkEvent>)
    requires Distinct(Inputs(events))
    ensures NoGroupTwice(Batches(events))
  {
    hide BatchNames, Flatten, BatchesFrom, Inputs;
    var batches := Batches(events);
    BatchesHoldInputs([], events);
    assert [] + Inputs(events) == Inputs(events);
    forall i, j | 0 <= i < j < |batches| ensures BatchNames(batches[i]) !! BatchNames(batches[j]) {
      ContentOfBatch(batches[i]);
      ContentOfBatch(batches[j]);
      if x :| x in BatchNames(batches[i]) && x in BatchNames(batches[j]) {
        var r := x.rows[0];
        assert r in x.rows;
        SharedRecordCounts(batches, i, r);
        DistinctCounts(Inputs(events), r);
        assert false;
      }
    }
  }

  /** Equal records flushed one by one share an object: the second one is not stored again. */
  lemma RepeatedRecordIsLost(r: PersistedRecord)
    ensures var events := [Received(r), IntervalTick, Received(r)];
            && Batches(events) == [[r], [r]] && !NoGroupTwice(Batches(events))
            && Content(AllNames(Batches(events))) != multiset(Inputs(events))
  {
    var events := [Received(r), IntervalTick, Received(r)];
    var e1, e2, e3 := events[1..], events[1..][1..], events[1..][1..][1..];
    assert e1[0] == IntervalTick && e2[0] == Received(r) && e3 == [];
    assert [] + [r] == [r] && [[r]] + [[r]] == [[r], [r]];
    assert BatchesFrom([], e2) == [[r]] && BatchesFrom([r], e1) == [[r], [r]];
    hide BatchNames, Content;
    BatchHasNames([r]);
    var batches := Batches(events);
    assert batches[0] == [r] && batches[1] == [r];
    assert !(BatchNames(batches[0]) !! BatchNames(batches[1]));
    EachGroupOnceIff(batches);
    BatchesHoldInputs([], events);
    assert [] + Inputs(events) == Inputs(events);
  }

  lemma BatchHasNames(batch: seq<PersistedRecord>)
    requires |batch| > 0
    ensures BatchNames(batch) != {}
  {
    hide Content, BatchNames;
    ContentOfBatch(batch);
    NoContent();
    assert |multiset(batch)| == |batch|;
  }

  // ---------------------------------------------------------------------------------------------
  // The sink
  // ---------------------------------------------------------------------------------------------

  function PathOf(enc: Encoder, base: Path, x: NamedGroup): Path
    requires |x.rows| > 0
  {
    ObjectPath(enc, base, x.key, x.rows)
  }

  /** None of the names that these groups are given is in use. */
  ghost predicate NewNames(enc: Encoder, base: Path, objects: Store, names: set<NamedGroup>) {
    forall x <- names :: |x.rows| > 0 ==> PathOf(enc, base, x) !in objects
  }

  /** The groups whose names are in use. */
  function InUse(enc: Encoder, base: Path, objects: Store, names: set<NamedGroup>): set<NamedGroup> {
    set x | x in names && |x.rows| > 0 && PathOf(enc, base, x) in objects
  }

  /** Names in use belong to objects that hold what they are named for, as every object the sink writes does. */
  ghost predicate NamesHold(enc: Encoder, base: Path, objects: Store, names: set<NamedGroup>) {
    forall x <- InUse(enc, base, objects, names) :: objects[PathOf(enc, base, x)] == Parquet(x.rows)
  }

  ghost function RowMap(objects: Store): map<Path, seq<PersistedRecord>> {
    map p | p in objects && objects[p].Parquet? :: objects[p].rows
  }

  class ParquetSink {
    const writer: ParquetRecordWriter
    var buffer: seq<PersistedRecord>

    constructor (writer: ParquetRecordWriter)
      ensures this.writer == writer && buffer == []
    {
      this.writer, buffer := writer, [];
    }

    /**
     Writes the buffer, retrying the whole batch a bounded number of times. The buffer is emptied on
     success and kept on failure; no object outside the batch's names is ever written. It fails only after
     more failed store operations than it may retry.
     */
    method Flush() returns (r: Result<(), StoreError>)
      requires CollisionFree(writer.enc) && writer.store.Valid()
      modifies this, writer.store
      ensures writer.store.Valid()
      ensures OnlyAdds(writer.enc, writer.base, old(writer.store.objects), writer.store.objects, GroupsOf(old(buffer)))
      ensures r.Ok? ==> buffer == [] && Holds(writer.enc, writer.base, writer.store.objects, GroupsOf(old(buffer)))
      ensures r.Err? ==> buffer == old(buffer)
      ensures r.Err? <==> writer.store.failures > old(writer.store.failures) + 5
      ensures writer.store.failures >= old(writer.store.failures)
    {
      var attempt := 0;
      while true
        invariant writer.store.Valid() && buffer == old(buffer) && attempt <= MAX_FLUSH_RETRIES
        invariant OnlyAdds(writer.enc, writer.base, old(writer.store.objects), writer.store.objects,
                           GroupsOf(old(buffer)))
        invariant writer.store.failures == old(writer.store.failures) + attempt
        decreases MAX_FLUSH_RETRIES - attempt
      {
        ghost var before := writer.store.objects;
        r := writer.WriteBatch(buffer);
        OnlyAddsTwice(writer.enc, writer.base, old(writer.store.objects), before, writer.store.objects,
                      GroupsOf(buffer));
        if r.Ok? {
          buffer := [];
          return;
        }
        attempt := attempt + 1;
        if attempt > MAX_FLUSH_RETRIES {
          return;
        }
      }
    }

    /**
     The select loop. An Ok result means that every group of every flushed batch is stored once; those whose
     names were in use at the start were there already. The stored rows grew by exactly the records taken in
     if and only if no group was flushed twice or there before. An error means that one flush used up its
     retries or that the drain on cancellation was incomplete.
     */
    method Run(events: seq<SinkEvent>) returns (r: Result<(), SinkError>)
      requires CollisionFree(writer.enc) && writer.store.Valid() && buffer == []
      modifies this, writer.store
      ensures r.Ok? && NamesHold(writer.enc, writer.base, old(writer.store.objects), AllNames(Batches(events))) ==>
                var before, after := Bag(RowMap(old(writer.store.objects))), Bag(RowMap(writer.store.objects));
                var names := AllNames(Batches(events));
                var known := InUse(writer.enc, writer.base, old(writer.store.objects), names);
                && after == before + Content(names - known)
                && (after == before + multiset(Inputs(events)) <==> NoGroupTwice(Batches(events)) && known == {})
      ensures r.Ok? ==> !Interrupted(events)
      ensures r.Err? ==>
                if r.error.FlushFailed? then writer.store.failures > old(writer.store.failures) + 5
                else Interrupted(events)
    {
      ghost var run := SinkRun(writer.enc, writer.base, writer.store.objects, Batches(events));
      run.Begin();
      r := Select(run, events);
      GrowthIff(events, run.start, writer.store.objects, run.Known());
    }

    method Select(ghost run: SinkRun, events: seq<SinkEvent>) returns (r: Result<(), SinkError>)
      requires CollisionFree(writer.enc) && writer.store.Valid() && run.enc == writer.enc && run.base == writer.base
      requires buffer == [] && run.Progress(writer.store.objects, [], Batches(events))
      modifies this, writer.store
      ensures r.Ok? ==> run.Grew(writer.store.objects) && !Interrupted(events)
      ensures r.Err? ==>
                if r.error.FlushFailed? then writer.store.failures > old(writer.store.failures) + 5
                else Interrupted(events)
    {
      hide SinkRun.Progress, SinkRun.Grew, CollisionFree, BatchesFrom, Batch;
      assert events[0..] == events;
      ghost var flushed := [];
      var i := 0;
      while i < |events|
        invariant 0 <= i <= |events| && writer.store.Valid()
        invariant run.Progress(writer.store.objects, flushed, BatchesFrom(buffer, events[i..]))
        invariant writer.store.failures >= old(writer.store.failures)
        invariant forall j | 0 <= j < i :: !events[j].Cancelled?
      {
        BatchesStep(buffer, events, i);
        match events[i] {
          case Received(record) =>
            buffer := buffer + [record];
          case IntervalTick =>
            r, flushed := FlushBuffer(run, flushed, BatchesFrom([], events[i + 1..]));
            if r.Err? {
              return;
            }
          case Cancelled(drained, complete) =>
            r := Shutdown(run, drained, complete, flushed);
            return;
        }
        i := i + 1;
      }
      BatchesStep(buffer, events, i);
      assert buffer + [] == buffer;
      r := Shutdown(run, [], true, flushed);
    }

    /** Takes in what the channel still holds, flushes, and reports an incomplete drain as an error. */
    method Shutdown(ghost run: SinkRun, drained: seq<PersistedRecord>, complete: bool,
                    ghost flushed: seq<seq<PersistedRecord>>)
      returns (r: Result<(), SinkError>)
      requires CollisionFree(writer.enc) && writer.store.Valid() && run.enc == writer.enc && run.base == writer.base
      requires run.Progress(writer.store.objects, flushed, Batch(buffer + drained))
      modifies this, writer.store
      ensures r.Ok? ==> run.Grew(writer.store.objects) && complete
      ensures r.Err? ==>
                if r.error.FlushFailed? then writer.store.failures > old(writer.store.failures) + 5
                else !complete
    {
      hide SinkRun.Progress, SinkRun.Grew, CollisionFree, Batch;
      buffer := buffer + drained;
      ghost var after;
      assert Batch(buffer) + [] == Batch(buffer);
      r, after := FlushBuffer(run, flushed, []);
      if r.Ok? {
        run.Finish(writer.store.objects, after);
      }
      if r.Ok? && !complete {
        return Err(DrainTimedOut);
      }
    }

    /** Flushes a non-empty buffer; `flushed` are the batches flushed so far, `rest` those to come. */
    method FlushBuffer(ghost run: SinkRun, ghost flushed: seq<seq<PersistedRecord>>,
                       ghost rest: seq<seq<PersistedRecord>>)
      returns (r: Result<(), SinkError>, ghost after: seq<seq<PersistedRecord>>)
      requires CollisionFree(writer.enc) && writer.store.Valid() && run.enc == writer.enc && run.base == writer.base
      requires run.Progress(writer.store.objects, flushed, Batch(buffer) + rest)
      modifies this, writer.store
      ensures writer.store.Valid()
      ensures r.Ok? ==> buffer == [] && run.Progress(writer.store.objects, after, rest)
      ensures writer.store.failures >= old(writer.store.failures)
      ensures r.Err? ==> r.error.FlushFailed? && writer.store.failures > old(writer.store.failures) + 5
    {
      hide SinkRun.Progress, CollisionFree, OnlyAdds, Holds;
      after := flushed + Batch(buffer);
      if buffer == [] {
        assert after == flushed && Batch(buffer) + rest == rest;
        return Ok(()), after;
      }
      ghost var before, batch := writer.store.objects, buffer;
      var done := Flush();
      if done.Err? {
        return Err(FlushFailed(done.error)), after;
      }
      run.Flushed(before, writer.store.objects, flushed, batch, rest);
      return Ok(()), after;
    }
  }

  lemma BatchesStep(buffer: seq<PersistedRecord>, events: seq<SinkEvent>, i: nat)
    requires i <= |events|
    ensures i == |events| ==> BatchesFrom(buffer, events[i..]) == Batch(buffer)
    ensures i < |events| ==>
              var e, rest := events[i], events[i + 1..];
              BatchesFrom(buffer, events[i..])
              == if e.Received? then BatchesFrom(buffer + [e.record], rest)
                 else if e.IntervalTick? then Batch(buffer) + BatchesFrom([], rest)
                 else Batch(buffer + e.drained)
  {
    assert i < |events| ==> events[i..][1..] == events[i + 1..];
  }

  /** When growing by each group once is growing by what was taken in. */
  lemma GrowthIff(events: seq<SinkEvent>, start: Store, now: Store, known: set<NamedGroup>)
    requires known <= AllNames(Batches(events)) && forall x <- known :: |x.rows| > 0
    ensures Bag(RowMap(now)) == Bag(RowMap(start)) + Content(AllNames(Batches(events)) - known) ==>
              (Bag(RowMap(now)) == Bag(RowMap(start)) + multiset(Inputs(events))
               <==> NoGroupTwice(Batches(events)) && known == {})
  {
    hide Bag, RowMap, Content, AllNames, NoGroupTwice, BatchesFrom, Flatten;
    var names := AllNames(Batches(events));
    EachGroupOnceIff(Batches(events));
    BatchesHoldInputs([], events);
    assert [] + Inputs(events) == Inputs(events);
    ContentOfUnion(names - known, known);
    assert (names - known) + known == names;
    if known == {} {
      assert names - known == names;
    } else {
      SomeContent(known);
    }
    SameGrowth(Bag(RowMap(start)), Content(names - known), multiset(Inputs(events)));
  }

  lemma SomeContent(names: set<NamedGroup>)
    requires names != {} && forall x <- names :: |x.rows| > 0
    ensures |Content(names)| > 0
  {
    hide Bag;
    var x :| x in names;
    assert (names - {x}) + {x} == names;
    ContentOfOneMore(names - {x}, x);
  }

  lemma SameGrowth<T>(start: multiset<T>, x: multiset<T>, y: multiset<T>)
    ensures start + x == start + y <==> x == y
  {
    assert start + x - start == x && start + y - start == y;
  }

  /** One run of the sink: its encoder and path, the objects at its start, and the batches it flushes. */
  datatype SinkRun = SinkRun(enc: Encoder, base: Path, start: Store, batches: seq<seq<PersistedRecord>>) {
    /** Flushed and coming batches make up the whole, and every group of the flushed ones is stored once. */
    ghost predicate Progress(now: Store, flushed: seq<seq<PersistedRecord>>, rest: seq<seq<PersistedRecord>>) {
      && flushed + rest == batches
      && (NamesHold(enc, base, start, AllNames(batches)) ==>
            Stored(enc, base, start, now, Known(), Known() + AllNames(flushed)))
    }

    /** The groups that were stored before the run. */
    function Known(): set<NamedGroup> {
      InUse(enc, base, start, AllNames(batches))
    }

    ghost predicate Grew(now: Store) {
      NamesHold(enc, base, start, AllNames(batches)) ==>
        Bag(RowMap(now)) == Bag(RowMap(start)) + Content(AllNames(batches) - Known())
    }

    lemma Begin()
      ensures Progress(start, [], batches)
    {
      NoContent();
      assert [] + batches == batches;
      assert Known() + AllNames([]) == Known() && Known() - Known() == {};
    }

    lemma Finish(now: Store, flushed: seq<seq<PersistedRecord>>)
      requires Progress(now, flushed, [])
      ensures Grew(now)
    {
      assert flushed + [] == flushed;
      assert Known() + AllNames(batches) == AllNames(batches);
    }

    lemma Flushed(before: Store, now: Store, flushed: seq<seq<PersistedRecord>>, batch: seq<PersistedRecord>,
                  rest: seq<seq<PersistedRecord>>)
      requires CollisionFree(enc) && Progress(before, flushed, [batch] + rest)
      requires OnlyAdds(enc, base, before, now, GroupsOf(batch)) && Holds(enc, base, now, GroupsOf(batch))
      ensures Progress(now, flushed + [batch], rest)
    {
      hide CollisionFree, OnlyAdds, Holds, Stored, BatchNames, Grouped;
      assert flushed + ([batch] + rest) == flushed + [batch] + rest;
      assert (flushed + [batch])[..|flushed|] == flushed;
      if NamesHold(enc, base, start, AllNames(batches)) {
        NamesAreOfBatches(batches);
        assert batches[|flushed|] == batch;
        assert NewNames(enc, base, start, BatchNames(batch) - (Known() + AllNames(flushed)));
        FlushStoresBatch(enc, base, start, before, now, Known(), Known() + AllNames(flushed), batch);
        assert Known() + AllNames(flushed) + BatchNames(batch) == Known() + AllNames(flushed + [batch]);
      }
    }
  }

  /** The objects of these groups are there, and beyond what was there at the start nothing else is. */
  ghost predicate ObjectsAre(enc: Encoder, base: Path, start: Store, now: Store, names: set<NamedGroup>) {
    && (forall x <- names ::
        |x.rows| > 0 && PathOf(enc, base, x) in now && now[PathOf(enc, base, x)] == Parquet(x.rows))
    && (forall p <- now | p !in start :: exists x <- names :: |x.rows| > 0 && p == PathOf(enc, base, x))
  }

  /** These groups are stored, and all but the known ones were stored since the start, each once. */
  ghost predicate Stored(enc: Encoder, base: Path, start: Store, now: Store, known: set<NamedGroup>,
                         names: set<NamedGroup>) {
    && known <= names && ObjectsAre(enc, base, start, now, names)
    && Bag(RowMap(now)) == Bag(RowMap(start)) + Content(names - known)
  }

  lemma OnlyAddsTwice(enc: Encoder, base: Path, a: Store, b: Store, c: Store, groups: Groups)
    requires OnlyAdds(enc, base, a, b, groups) && OnlyAdds(enc, base, b, c, groups)
    ensures OnlyAdds(enc, base, a, c, groups)
  {
  }

  /** The batch's groups have pairwise different paths, none of them in use before. */
  ghost predicate NewPaths(enc: Encoder, base: Path, before: Store, groups: Groups) {
    && (forall k <- groups :: |groups[k]| > 0 && ObjectPath(enc, base, k, groups[k]) !in before)
    && forall j <- groups, k <- groups | j != k ::
       ObjectPath(enc, base, j, groups[j]) != ObjectPath(enc, base, k, groups[k])
  }

  lemma PathsDiffer(enc: Encoder, base: Path, groups: Groups)
    requires CollisionFree(enc) && forall k <- groups :: |groups[k]| > 0
    ensures forall j <- groups, k <- groups | j != k ::
              ObjectPath(enc, base, j, groups[j]) != ObjectPath(enc, base, k, groups[k])
  {
    hide CollisionFree;
    forall j <- groups, k <- groups | ObjectPath(enc, base, j, groups[j]) == ObjectPath(enc, base, k, groups[k])
           ensures j == k {
      ObjectPathInjective(enc, base, j, groups[j], k, groups[k]);
    }
  }

  /** Taking one group away again, together with its object. */
  lemma OneGroupLess(enc: Encoder, base: Path, before: Store, after: Store, groups: Groups, k: GroupKey)
    requires k in groups && NewPaths(enc, base, before, groups)
    requires OnlyAdds(enc, base, before, after, groups) && Holds(enc, base, after, groups)
    ensures var p, fewer := ObjectPath(enc, base, k, groups[k]), groups - {k};
            && p in after && after[p] == Parquet(groups[k])
            && OnlyAdds(enc, base, before, after - {p}, fewer)
            && Holds(enc, base, after - {p}, fewer)
            && NewPaths(enc, base, before, fewer)
  {
    AddsOneLess(enc, base, before, after, groups, k);
    HoldsOneLess(enc, base, before, after, groups, k);
    hide ObjectPath, OnlyAdds, Holds;
  }

  lemma HoldsOneLess(enc: Encoder, base: Path, before: Store, after: Store, groups: Groups, k: GroupKey)
    requires k in groups && NewPaths(enc, base, before, groups) && Holds(enc, base, after, groups)
    ensures var p := ObjectPath(enc, base, k, groups[k]);
            && p in after && after[p] == Parquet(groups[k]) && Holds(enc, base, after - {p}, groups - {k})
  {
    hide ObjectPath;
  }

  lemma AddsOneLess(enc: Encoder, base: Path, before: Store, after: Store, groups: Groups, k: GroupKey)
    requires k in groups && NewPaths(enc, base, before, groups) && OnlyAdds(enc, base, before, after, groups)
    ensures OnlyAdds(enc, base, before, after - {ObjectPath(enc, base, k, groups[k])}, groups - {k})
  {
    hide ObjectPath;
    var p, fewer := ObjectPath(enc, base, k, groups[k]), groups - {k};
    forall p' <- after - {p} | p' !in before || after[p'] != before[p']
      ensures exists j <- fewer ::
              |fewer[j]| > 0 && p' == ObjectPath(enc, base, j, fewer[j]) && after[p'] == Parquet(fewer[j])
    {
      var j :| j in groups && |groups[j]| > 0 && p' == ObjectPath(enc, base, j, groups[j])
          && after[p'] == Parquet(groups[j]);
      assert j in fewer;
    }
  }

  lemma {:induction false} AddedObjects(enc: Encoder, base: Path, before: Store, after: Store, groups: Groups)
    requires NewPaths(enc, base, before, groups)
    requires OnlyAdds(enc, base, before, after, groups) && Holds(enc, base, after, groups)
    ensures Bag(RowMap(after)) == Bag(RowMap(before)) + Bag(groups)
    decreases |groups|
  {
    hide *;
    if |groups| == 0 {
      NothingAdded(enc, base, before, after, groups);
    } else {
      var k :| k in groups;
      OneGroupAdded(enc, base, before, after, groups, k);
      AddedObjects(enc, base, before, after - {ObjectPath(enc, base, k, groups[k])}, groups - {k});
    }
  }

  lemma NothingAdded(enc: Encoder, base: Path, before: Store, after: Store, groups: Groups)
    requires |groups| == 0 && OnlyAdds(enc, base, before, after, groups)
    ensures Bag(RowMap(after)) == Bag(RowMap(before)) + Bag(groups)
  {
    EmptyBag(groups);
    hide Bag, RowMap, ObjectPath;
    assert forall p <- after :: p in before && after[p] == before[p];
    assert after == before;
  }

  lemma EmptyBag(groups: Groups)
    requires |groups| == 0
    ensures Bag(groups) == multiset{}
  {
  }

  lemma OneGroupAdded(enc: Encoder, base: Path, before: Store, after: Store, groups: Groups, k: GroupKey)
    requires k in groups && NewPaths(enc, base, before, groups)
    requires OnlyAdds(enc, base, before, after, groups) && Holds(enc, base, after, groups)
    ensures |groups[k]| > 0
    ensures var p, fewer := ObjectPath(enc, base, k, groups[k]), groups - {k};
            && OnlyAdds(enc, base, before, after - {p}, fewer) && Holds(enc, base, after - {p}, fewer)
            && NewPaths(enc, base, before, fewer)
            && |fewer| < |groups|
            && Bag(RowMap(after)) == Bag(RowMap(after - {p})) + multiset(groups[k])
            && Bag(groups) == Bag(fewer) + multiset(groups[k])
  {
    OneGroupLess(enc, base, before, after, groups, k);
    hide *;
    var p := ObjectPath(enc, base, k, groups[k]);
    BagCount(groups, k);
    BagTake(groups, k);
    RowMapLess(after, p, groups[k]);
  }

  lemma RowMapLess(after: Store, p: Path, rows: seq<PersistedRecord>)
    requires p in after && after[p] == Parquet(rows)
    ensures Bag(RowMap(after)) == Bag(RowMap(after - {p})) + multiset(rows)
  {
    BagTake(RowMap(after), p);
    assert RowMap(after) - {p} == RowMap(after - {p});
  }

  /** The groups of a batch that are not stored yet. */
  function Fresh(groups: Groups, names: set<NamedGroup>): Groups {
    map k | k in groups && NamedGroup(k, groups[k]) !in names :: groups[k]
  }

  lemma FreshNames(groups: Groups, names: set<NamedGroup>)
    ensures Names(Fresh(groups, names)) == Names(groups) - names
    ensures names + (Names(groups) - names) == names + Names(groups)
  {
    forall x ensures x in Names(Fresh(groups, names)) <==> x in Names(groups) - names {
      if x in Names(groups) - names {
        assert x.key in Fresh(groups, names);
      }
    }
  }

  /** A group that is already stored is written again as it is, so only the fresh ones add objects. */
  lemma OnlyFreshAdded(enc: Encoder, base: Path, start: Store, before: Store, after: Store,
                       names: set<NamedGroup>, groups: Groups)
    requires ObjectsAre(enc, base, start, before, names)
    requires OnlyAdds(enc, base, before, after, groups) && Holds(enc, base, after, groups)
    ensures OnlyAdds(enc, base, before, after, Fresh(groups, names)) && Holds(enc, base, after, Fresh(groups, names))
  {
    hide ObjectPath, Content, Bag, RowMap;
    var unstored := Fresh(groups, names);
    forall p <- after | p !in before || after[p] != before[p]
      ensures exists k <- unstored ::
                |unstored[k]| > 0 && p == ObjectPath(enc, base, k, unstored[k]) && after[p] == Parquet(unstored[k])
    {
      var k :| k in groups && |groups[k]| > 0 && p == ObjectPath(enc, base, k, groups[k])
          && after[p] == Parquet(groups[k]);
      assert NamedGroup(k, groups[k]) !in names;
      assert k in unstored;
    }
  }

  lemma FreshPathsAreNew(enc: Encoder, base: Path, start: Store, before: Store, names: set<NamedGroup>, groups: Groups)
    requires CollisionFree(enc) && ObjectsAre(enc, base, start, before, names)
    requires NewNames(enc, base, start, Names(groups) - names) && forall k <- groups :: |groups[k]| > 0
    ensures NewPaths(enc, base, before, Fresh(groups, names))
  {
    hide CollisionFree, ObjectPath, Content, Bag, RowMap;
    var unstored := Fresh(groups, names);
    PathsDiffer(enc, base, unstored);
    forall k <- unstored ensures ObjectPath(enc, base, k, unstored[k]) !in before {
      var p := ObjectPath(enc, base, k, unstored[k]);
      assert NamedGroup(k, groups[k]) in Names(groups) - names;
      assert p == PathOf(enc, base, NamedGroup(k, groups[k])) && p !in start;
      if p in before {
        var x :| x in names && |x.rows| > 0 && p == PathOf(enc, base, x);
        ObjectPathInjective(enc, base, k, unstored[k], x.key, x.rows);
      }
    }
  }

  /** A successful flush leaves every group of the batch stored once, next to those already there. */
  lemma FlushStoresBatch(enc: Encoder, base: Path, start: Store, before: Store, after: Store,
                         known: set<NamedGroup>, names: set<NamedGroup>, batch: seq<PersistedRecord>)
    requires CollisionFree(enc) && Stored(enc, base, start, before, known, names)
    requires OnlyAdds(enc, base, before, after, GroupsOf(batch)) && Holds(enc, base, after, GroupsOf(batch))
    requires NewNames(enc, base, start, BatchNames(batch) - names)
    ensures Stored(enc, base, start, after, known, names + BatchNames(batch))
  {
    hide *;
    var groups := GroupsOf(batch);
    BatchNamesAre(batch);
    GroupsAreNonEmpty(batch);
    IsStored(enc, base, start, before, known, names);
    FreshGrowth(enc, base, start, before, after, known, names, groups);
    StoredObjects(enc, base, start, before, after, names, groups);
    IsStored(enc, base, start, after, known, names + Names(groups));
  }

  lemma GroupsAreNonEmpty(batch: seq<PersistedRecord>)
    ensures forall k <- GroupsOf(batch) :: |GroupsOf(batch)[k]| > 0
  {
    GroupedMembers(batch, KeyFor);
  }

  lemma BatchNamesAre(batch: seq<PersistedRecord>)
    ensures BatchNames(batch) == Names(GroupsOf(batch))
  {
  }

  lemma IsStored(enc: Encoder, base: Path, start: Store, now: Store, known: set<NamedGroup>, names: set<NamedGroup>)
    ensures Stored(enc, base, start, now, known, names) <==>
              && known <= names && ObjectsAre(enc, base, start, now, names)
              && Bag(RowMap(now)) == Bag(RowMap(start)) + Content(names - known)
  {
    hide ObjectsAre, Content, Bag, RowMap;
  }

  /** The rows grow by the fresh groups. */
  lemma FreshGrowth(enc: Encoder, base: Path, start: Store, before: Store, after: Store,
                    known: set<NamedGroup>, names: set<NamedGroup>, groups: Groups)
    requires CollisionFree(enc) && known <= names && ObjectsAre(enc, base, start, before, names)
    requires Bag(RowMap(before)) == Bag(RowMap(start)) + Content(names - known)
    requires NewNames(enc, base, start, Names(groups) - names)
    requires OnlyAdds(enc, base, before, after, groups) && Holds(enc, base, after, groups)
    requires forall k <- groups :: |groups[k]| > 0
    ensures Bag(RowMap(after)) == Bag(RowMap(start)) + Content(names + Names(groups) - known)
  {
    hide CollisionFree, Bag, RowMap, Content, Names, Fresh, OnlyAdds, Holds, NewPaths, NewNames, ObjectsAre;
    FreshPathsAreNew(enc, base, start, before, names, groups);
    OnlyFreshAdded(enc, base, start, before, after, names, groups);
    var unstored := Fresh(groups, names);
    AddedObjects(enc, base, before, after, unstored);
    FreshNames(groups, names);
    ContentOfNames(unstored);
    ContentOfUnion(names - known, Names(groups) - names);
    assert (names - known) + (Names(groups) - names) == names + Names(groups) - known;
  }

  lemma StoredObjects(enc: Encoder, base: Path, start: Store, before: Store, after: Store,
                      names: set<NamedGroup>, groups: Groups)
    requires ObjectsAre(enc, base, start, before, names) && CollisionFree(enc)
    requires OnlyAdds(enc, base, before, after, groups) && Holds(enc, base, after, groups)
    requires forall k <- groups :: |groups[k]| > 0
    ensures ObjectsAre(enc, base, start, after, names + Names(groups))
  {
    hide CollisionFree, ObjectPath, Content, Bag, RowMap;
    forall x <- names + Names(groups)
      ensures |x.rows| > 0 && PathOf(enc, base, x) in after && after[PathOf(enc, base, x)] == Parquet(x.rows)
    {
      if x in names {
        var p := PathOf(enc, base, x);
        if after[p] != before[p] {
          var k :| k in groups && |groups[k]| > 0 && p == ObjectPath(enc, base, k, groups[k])
              && after[p] == Parquet(groups[k]);
          ObjectPathInjective(enc, base, k, groups[k], x.key, x.rows);
        }
      }
    }
    forall p <- after | p !in start
           ensures exists x <- names + Names(groups) :: |x.rows| > 0 && p == PathOf(enc, base, x) {
      if p !in before {
        var k :| k in groups && |groups[k]| > 0 && p == ObjectPath(enc, base, k, groups[k])
            && after[p] == Parquet(groups[k]);
        assert NamedGroup(k, groups[k]) in Names(groups) && p == PathOf(enc, base, NamedGroup(k, groups[k]));
      }
    }
  }
}
