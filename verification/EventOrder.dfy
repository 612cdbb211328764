/** The deterministic order of replayed book events: an eight-key comparator and a stable sort by it. */
module EventOrder {
  import opened Types

  datatype ReplayMode = RecvTime | ExchangeTime

  datatype Ordering = Less | Equal | Greater {
    function Reverse(): Ordering {
      match this
      case Less => Greater
      case Equal => Equal
      case Greater => Less
    }

    /** The first key that differs decides. */
    function Then(next: Ordering): Ordering {
      if this == Equal then next else this
    }
  }

  function CompareInt(a: int, b: int): Ordering {
    if a < b then Less else if a > b then Greater else Equal
  }

  function CompareText(a: string, b: string): Ordering {
    if |a| == 0 && |b| == 0 then Equal
    else if |a| == 0 then Less
    else if |b| == 0 then Greater
    else CompareInt(a[0] as int, b[0] as int).Then(CompareText(a[1..], b[1..]))
  }

  /** An absent id sorts before any present one. */
  function CompareId(a: Option<string>, b: Option<string>): Ordering {
    match (a, b)
    case (None, None) => Equal
    case (None, Some(_)) => Less
    case (Some(_), None) => Greater
    case (Some(x), Some(y)) => CompareText(x, y)
  }

  function NormalizedExchangeTs(e: BookEvent): U64 {
    if e.provenance.exchangeTimestampUs == 0 then e.provenance.recvTimestampUs else e.provenance.exchangeTimestampUs
  }

  /** Primary and secondary ordering timestamps for the replay clock. */
  function OrderingKeys(e: BookEvent, mode: ReplayMode): (U64, U64) {
    match mode
    case RecvTime => (e.provenance.recvTimestampUs, 0)
    case ExchangeTime => (NormalizedExchangeTs(e), e.provenance.recvTimestampUs)
  }

  function EventTs(e: BookEvent, mode: ReplayMode): U64 {
    match mode
    case RecvTime => e.provenance.recvTimestampUs
    case ExchangeTime => NormalizedExchangeTs(e)
  }

  function SideRank(s: Side): int {
    match s
    case Bid => 0
    case Ask => 1
  }

  /** Events without an ordinal sort after those that have one. */
  function OrdinalOrMax(e: BookEvent): int {
    if e.provenance.ingestOrdinal.Some? then e.provenance.ingestOrdinal.value else U64_LIMIT - 1
  }

  /** Clock first: timestamps, then the ingest ordinal, then the sequence. */
  function CompareArrival(a: BookEvent, b: BookEvent, mode: ReplayMode): Ordering {
    var (ap, as_) := OrderingKeys(a, mode);
    var (bp, bs) := OrderingKeys(b, mode);
    CompareInt(ap, bp)
      .Then(CompareInt(as_, bs))
      .Then(CompareInt(OrdinalOrMax(a), OrdinalOrMax(b)))
      .Then(CompareInt(SequenceOf(a.provenance), SequenceOf(b.provenance)))
  }

  /** Content breaks the remaining ties. */
  function CompareContent(a: BookEvent, b: BookEvent): Ordering {
    CompareInt(SideRank(a.side), SideRank(b.side))
      .Then(CompareInt(a.price, b.price))
      .Then(CompareInt(a.size, b.size))
      .Then(CompareId(a.provenance.sourceEventId, b.provenance.sourceEventId))
  }

  function Compare(a: BookEvent, b: BookEvent, mode: ReplayMode): Ordering {
    CompareArrival(a, b, mode).Then(CompareContent(a, b))
  }

  predicate Before(a: BookEvent, b: BookEvent, mode: ReplayMode) {
    Compare(a, b, mode) != Greater
  }

  // ---------------------------------------------------------------------------------------------
  // A total preorder
  // ---------------------------------------------------------------------------------------------

  /** What the comparisons of three values `a`, `b`, `c` of a total preorder satisfy. */
  predicate Coherent(ab: Ordering, ba: Ordering, bc: Ordering, ac: Ordering) {
    && ba == ab.Reverse()
    && (ab != Greater && bc != Greater ==> ac == if ab == Equal then bc else Less)
    && (ab == Equal ==> ac == bc)
  }

  lemma ThenCoherent(ab: Ordering, ba: Ordering, bc: Ordering, ac: Ordering, ab': Ordering, ba': Ordering,
                     bc': Ordering, ac': Ordering)
    requires Coherent(ab, ba, bc, ac) && Coherent(ab', ba', bc', ac')
    ensures Coherent(ab.Then(ab'), ba.Then(ba'), bc.Then(bc'), ac.Then(ac'))
  {
  }

  lemma {:induction false} TextOrder(a: string, b: string, c: string)
    ensures Coherent(CompareText(a, b), CompareText(b, a), CompareText(b, c), CompareText(a, c))
  {
    if |a| > 0 && |b| > 0 && |c| > 0 {
      TextOrder(a[1..], b[1..], c[1..]);
    } else if |a| > 0 && |b| > 0 {
      TextOrder(a[1..], b[1..], c);
    }
  }

  lemma IdOrder(a: Option<string>, b: Option<string>, c: Option<string>)
    ensures Coherent(CompareId(a, b), CompareId(b, a), CompareId(b, c), CompareId(a, c))
  {
    if a.Some? && b.Some? {
      TextOrder(a.value, b.value, if c.Some? then c.value else "");
    }
  }

  lemma {:induction false} SameText(a: string)
    ensures CompareText(a, a) == Equal
  {
    if |a| > 0 {
      SameText(a[1..]);
    }
  }

  lemma ArrivalOrder(a: BookEvent, b: BookEvent, c: BookEvent, mode: ReplayMode)
    ensures Coherent(CompareArrival(a, b, mode), CompareArrival(b, a, mode), CompareArrival(b, c, mode),
                     CompareArrival(a, c, mode))
  {
  }

  lemma ContentOrder(a: BookEvent, b: BookEvent, c: BookEvent)
    ensures Coherent(CompareContent(a, b), CompareContent(b, a), CompareContent(b, c), CompareContent(a, c))
  {
    IdOrder(a.provenance.sourceEventId, b.provenance.sourceEventId, c.provenance.sourceEventId);
  }

  /** The comparator is a total preorder: reflexive, reversed by swapping, and transitive. */
  lemma CompareIsTotalPreorder(a: BookEvent, b: BookEvent, c: BookEvent, mode: ReplayMode)
    ensures Compare(a, a, mode) == Equal
    ensures Compare(b, a, mode) == Compare(a, b, mode).Reverse()
    ensures Before(a, b, mode) && Before(b, c, mode) ==> Before(a, c, mode)
    ensures Compare(a, b, mode) == Equal ==> Compare(a, c, mode) == Compare(b, c, mode)
  {
    hide CompareArrival, CompareContent;
    ArrivalOrder(a, b, c, mode);
    ContentOrder(a, b, c);
    ThenCoherent(CompareArrival(a, b, mode), CompareArrival(b, a, mode), CompareArrival(b, c, mode),
                 CompareArrival(a, c, mode),
                 CompareContent(a, b), CompareContent(b, a), CompareContent(b, c), CompareContent(a, c));
    ComparesEqualToItself(a, mode);
  }

  lemma BeforeTotal(a: BookEvent, b: BookEvent, mode: ReplayMode)
    ensures Before(a, b, mode) || Before(b, a, mode)
  {
    CompareIsTotalPreorder(a, b, b, mode);
  }

  lemma BeforeTransitive(a: BookEvent, b: BookEvent, c: BookEvent, mode: ReplayMode)
    requires Before(a, b, mode) && Before(b, c, mode)
    ensures Before(a, c, mode)
  {
    CompareIsTotalPreorder(a, b, c, mode);
  }

  lemma ComparesEqualToItself(a: BookEvent, mode: ReplayMode)
    ensures Compare(a, a, mode) == Equal
  {
    if a.provenance.sourceEventId.Some? {
      SameText(a.provenance.sourceEventId.value);
    }
  }

  // ---------------------------------------------------------------------------------------------
  // The stable sort
  // ---------------------------------------------------------------------------------------------

  /** Inserts an event after every event that does not sort behind it. */
  function Insert(e: BookEvent, s: seq<BookEvent>, mode: ReplayMode): seq<BookEvent> {
    if |s| == 0 || Before(s[|s| - 1], e, mode) then s + [e]
    else Insert(e, s[..|s| - 1], mode) + [s[|s| - 1]]
  }

  function SortEvents(s: seq<BookEvent>, mode: ReplayMode): seq<BookEvent> {
    if |s| == 0 then [] else Insert(s[|s| - 1], SortEvents(s[..|s| - 1], mode), mode)
  }

  ghost predicate IsSorted(s: seq<BookEvent>, mode: ReplayMode) {
    forall i, j | 0 <= i < j < |s| :: Before(s[i], s[j], mode)
  }

  lemma {:induction false} InsertMembers(e: BookEvent, s: seq<BookEvent>, mode: ReplayMode)
    ensures multiset(Insert(e, s, mode)) == multiset(s) + multiset{e}
    ensures forall x :: x in Insert(e, s, mode) <==> x in s || x == e
  {
    hide Before;
    var n := |s| - 1;
    if |s| > 0 && !Before(s[n], e, mode) {
      InsertMembers(e, s[..n], mode);
      assert s == s[..n] + [s[n]];
    }
  }

  lemma SortedPush(s: seq<BookEvent>, e: BookEvent, mode: ReplayMode)
    requires IsSorted(s, mode) && forall x <- s :: Before(x, e, mode)
    ensures IsSorted(s + [e], mode)
  {
  }

  lemma {:induction false} InsertSorted(e: BookEvent, s: seq<BookEvent>, mode: ReplayMode)
    requires IsSorted(s, mode)
    ensures IsSorted(Insert(e, s, mode), mode)
  {
    hide Before;
    var n := |s| - 1;
    if |s| == 0 {
      SortedPush(s, e, mode);
    } else if Before(s[n], e, mode) {
      forall x | x in s ensures Before(x, e, mode) {
        var i :| 0 <= i < |s| && s[i] == x;
        if i < n {
          BeforeTransitive(s[i], s[n], e, mode);
        }
      }
      SortedPush(s, e, mode);
    } else {
      InsertSorted(e, s[..n], mode);
      InsertMembers(e, s[..n], mode);
      BeforeTotal(s[n], e, mode);
      SortedPush(Insert(e, s[..n], mode), s[n], mode);
    }
  }

  lemma {:induction false} SortCorrect(s: seq<BookEvent>, mode: ReplayMode)
    ensures IsSorted(SortEvents(s, mode), mode)
    ensures multiset(SortEvents(s, mode)) == multiset(s)
    ensures |SortEvents(s, mode)| == |s|
  {
    hide IsSorted, Insert;
    if |s| > 0 {
      var init, last := s[..|s| - 1], s[|s| - 1];
      SortCorrect(init, mode);
      InsertSorted(last, SortEvents(init, mode), mode);
      InsertMembers(last, SortEvents(init, mode), mode);
      assert s == init + [last];
    } else {
      EmptyIsSorted(mode);
    }
    assert |multiset(SortEvents(s, mode))| == |multiset(s)|;
  }

  lemma EmptyIsSorted(mode: ReplayMode)
    ensures IsSorted([], mode)
  {
  }

  /** A sorted sequence is left alone. */
  lemma {:induction false} SortOfSorted(s: seq<BookEvent>, mode: ReplayMode)
    requires IsSorted(s, mode)
    ensures SortEvents(s, mode) == s
  {
    if |s| > 0 {
      SortOfSorted(s[..|s| - 1], mode);
      assert s == s[..|s| - 1] + [s[|s| - 1]];
    }
  }

  function Filter(s: seq<BookEvent>, keep: BookEvent -> bool): seq<BookEvent> {
    if |s| == 0 then []
    else Filter(s[..|s| - 1], keep) + if keep(s[|s| - 1]) then [s[|s| - 1]] else []
  }

  lemma {:induction false} FilterMembers(s: seq<BookEvent>, keep: BookEvent -> bool)
    ensures forall e :: e in Filter(s, keep) <==> e in s && keep(e)
  {
    if |s| > 0 {
      FilterMembers(s[..|s| - 1], keep);
      assert s == s[..|s| - 1] + [s[|s| - 1]];
    }
  }

  lemma {:induction false} FilterConcat(a: seq<BookEvent>, b: seq<BookEvent>, keep: BookEvent -> bool)
    ensures Filter(a + b, keep) == Filter(a, keep) + Filter(b, keep)
  {
    if |b| == 0 {
      assert a + b == a;
    } else {
      FilterConcat(a, b[..|b| - 1], keep);
      assert (a + b)[..|a + b| - 1] == a + b[..|b| - 1];
    }
  }

  lemma FilterPush(s: seq<BookEvent>, e: BookEvent, keep: BookEvent -> bool)
    ensures Filter(s + [e], keep) == if keep(e) then Filter(s, keep) + [e] else Filter(s, keep)
  {
    assert (s + [e])[..|s|] == s;
  }

  /** An event behind everything is inserted at the end. */
  lemma InsertLast(e: BookEvent, s: seq<BookEvent>, mode: ReplayMode)
    requires forall x <- s :: Before(x, e, mode)
    ensures Insert(e, s, mode) == s + [e]
  {
  }

  lemma InsertBeforeLast(e: BookEvent, s: seq<BookEvent>, last: BookEvent, mode: ReplayMode)
    requires !Before(last, e, mode)
    ensures Insert(e, s + [last], mode) == Insert(e, s, mode) + [last]
  {
    assert (s + [last])[..|s|] == s;
  }

  lemma FilterInsertLast(e: BookEvent, s: seq<BookEvent>, keep: BookEvent -> bool, mode: ReplayMode)
    requires forall x <- s :: Before(x, e, mode)
    ensures Filter(Insert(e, s, mode), keep) == if keep(e) then Insert(e, Filter(s, keep), mode) else Filter(s, keep)
  {
    hide Before, Insert;
    FilterPush(s, e, keep);
    FilterMembers(s, keep);
    InsertLast(e, s, mode);
    InsertLast(e, Filter(s, keep), mode);
  }

  lemma {:induction false} FilterInsert(e: BookEvent, s: seq<BookEvent>, keep: BookEvent -> bool, mode: ReplayMode)
    requires IsSorted(s, mode)
    ensures Filter(Insert(e, s, mode), keep) == if keep(e) then Insert(e, Filter(s, keep), mode) else Filter(s, keep)
  {
    hide Before, Filter;
    var n := |s| - 1;
    if |s| == 0 || Before(s[n], e, mode) {
      forall x | x in s ensures Before(x, e, mode) {
        var i :| 0 <= i < |s| && s[i] == x;
        if i < n {
          BeforeTransitive(s[i], s[n], e, mode);
        }
      }
      FilterInsertLast(e, s, keep, mode);
    } else {
      var init, last := s[..n], s[n];
      FilterInsert(e, init, keep, mode);
      FilterPush(Insert(e, init, mode), last, keep);
      FilterPush(init, last, keep);
      assert s == init + [last];
      InsertBeforeLast(e, Filter(init, keep), last, mode);
    }
  }

  /** Dropping events and sorting commute. */
  lemma {:induction false} FilterSort(s: seq<BookEvent>, keep: BookEvent -> bool, mode: ReplayMode)
    ensures Filter(SortEvents(s, mode), keep) == SortEvents(Filter(s, keep), mode)
  {
    hide Insert, IsSorted;
    if |s| > 0 {
      var init, last := s[..|s| - 1], s[|s| - 1];
      FilterSort(init, keep, mode);
      SortCorrect(init, mode);
      FilterInsert(last, SortEvents(init, mode), keep, mode);
      FilterPush(init, last, keep);
      assert s == init + [last];
      SortPush(Filter(init, keep), last, mode);
    }
  }

  lemma SortPush(s: seq<BookEvent>, e: BookEvent, mode: ReplayMode)
    ensures SortEvents(s + [e], mode) == Insert(e, SortEvents(s, mode), mode)
  {
    assert (s + [e])[..|s|] == s;
  }

  // ---------------------------------------------------------------------------------------------
  // When the read order cannot matter
  // ---------------------------------------------------------------------------------------------

  /** Events that compare equal are identical. */
  ghost predicate EqualMeansSame(s: seq<BookEvent>, mode: ReplayMode) {
    forall a <- s, b <- s | Compare(a, b, mode) == Equal :: a == b
  }

  ghost predicate OrderIrrelevant(s: seq<BookEvent>, mode: ReplayMode) {
    forall t | multiset(t) == multiset(s) :: SortEvents(t, mode) == SortEvents(s, mode)
  }

  lemma FirstOfBoth(a: seq<BookEvent>, b: seq<BookEvent>, mode: ReplayMode)
    requires |a| > 0 && IsSorted(a, mode) && IsSorted(b, mode) && multiset(a) == multiset(b)
    ensures |b| > 0 && b[0] in a && Compare(a[0], b[0], mode) == Equal
  {
    hide Compare;
    assert a[0] in multiset(b) && b[0] in multiset(a);
    var i :| 0 <= i < |b| && b[i] == a[0];
    var j :| 0 <= j < |a| && a[j] == b[0];
    CompareIsTotalPreorder(a[0], b[0], b[0], mode);
    CompareIsTotalPreorder(b[0], a[0], a[0], mode);
  }

  lemma SameTails(a: seq<BookEvent>, b: seq<BookEvent>)
    requires |a| > 0 && |b| > 0 && a[0] == b[0] && multiset(a) == multiset(b)
    ensures multiset(a[1..]) == multiset(b[1..])
  {
    assert a == [a[0]] + a[1..] && b == [b[0]] + b[1..];
    assert multiset(a[1..]) == multiset(a) - multiset{a[0]};
    assert multiset(b[1..]) == multiset(b) - multiset{b[0]};
  }

  lemma {:induction false} SortedUnique(a: seq<BookEvent>, b: seq<BookEvent>, mode: ReplayMode)
    requires IsSorted(a, mode) && IsSorted(b, mode) && multiset(a) == multiset(b)
    requires EqualMeansSame(a, mode)
    ensures a == b
  {
    hide Compare, Before;
    assert |multiset(a)| == |multiset(b)|;
    if |a| > 0 {
      FirstOfBoth(a, b, mode);
      assert a == [a[0]] + a[1..] && b == [b[0]] + b[1..];
      SameTails(a, b);
      SortedUnique(a[1..], b[1..], mode);
    }
  }

  lemma {:induction false} SameClassStays(s: seq<BookEvent>, e: BookEvent, mode: ReplayMode)
    requires forall x <- s :: Compare(x, e, mode) == Equal
    ensures IsSorted(s, mode)
  {
    hide Compare;
    forall i, j | 0 <= i < j < |s| ensures Before(s[i], s[j], mode) {
      CompareIsTotalPreorder(s[i], e, s[j], mode);
      CompareIsTotalPreorder(s[j], e, e, mode);
    }
  }

  /** Stability: among events that compare equal, the sort keeps the order in which they arrived. */
  lemma StableOnClass(s: seq<BookEvent>, e: BookEvent, mode: ReplayMode)
    ensures var keep := x => Compare(x, e, mode) == Equal; Filter(SortEvents(s, mode), keep) == Filter(s, keep)
  {
    var keep := x => Compare(x, e, mode) == Equal;
    FilterSort(s, keep, mode);
    FilterMembers(s, keep);
    SameClassStays(Filter(s, keep), e, mode);
    SortOfSorted(Filter(s, keep), mode);
  }

  lemma SwappedSortsDiffer(a: BookEvent, b: BookEvent, rest: seq<BookEvent>, mode: ReplayMode)
    requires a != b && Compare(a, b, mode) == Equal
    ensures SortEvents([a, b] + rest, mode) != SortEvents([b, a] + rest, mode)
  {
    hide Compare;
    var keep := x => Compare(x, b, mode) == Equal;
    CompareIsTotalPreorder(a, b, b, mode);
    CompareIsTotalPreorder(b, b, b, mode);
    StableOnClass([a, b] + rest, b, mode);
    StableOnClass([b, a] + rest, b, mode);
    FilterConcat([a, b], rest, keep);
    FilterConcat([b, a], rest, keep);
    FilterPair(a, b, keep);
    FilterPair(b, a, keep);
    assert Filter([a, b] + rest, keep)[0] == a;
    assert Filter([b, a] + rest, keep)[0] == b;
  }

  lemma FilterPair(a: BookEvent, b: BookEvent, keep: BookEvent -> bool)
    requires keep(a) && keep(b)
    ensures Filter([a, b], keep) == [a, b]
  {
    assert [a, b][..1] == [a] && [a][..0] == [];
    assert Filter([a], keep) == [a];
  }

  /**
   The sorted window is independent of the order in which its events were read if and only if no two
   distinct events of the window compare equal.
   */
  lemma OrderIrrelevantIff(s: seq<BookEvent>, mode: ReplayMode)
    ensures OrderIrrelevant(s, mode) <==> EqualMeansSame(s, mode)
  {
    hide Compare;
    if EqualMeansSame(s, mode) {
      forall t | multiset(t) == multiset(s) ensures SortEvents(t, mode) == SortEvents(s, mode) {
        SortCorrect(s, mode);
        SortCorrect(t, mode);
        forall x | x in SortEvents(s, mode) ensures x in s {
          assert x in multiset(SortEvents(s, mode));
        }
        SortedUnique(SortEvents(s, mode), SortEvents(t, mode), mode);
      }
    } else {
      var a, b :| a in s && b in s && Compare(a, b, mode) == Equal && a != b;
      var rest := Without(s, a, b);
      SwappedSortsDiffer(a, b, rest, mode);
      assert multiset([a, b] + rest) == multiset(s) && multiset([b, a] + rest) == multiset(s);
    }
  }

  lemma Without(s: seq<BookEvent>, a: BookEvent, b: BookEvent) returns (rest: seq<BookEvent>)
    requires a in s && b in s && a != b
    ensures multiset([a, b] + rest) == multiset(s)
  {
    var t := TakeOut(s, a);
    assert b in multiset(s) && multiset(t) == multiset(s) - multiset{a};
    assert b in multiset(t);
    rest := TakeOut(t, b);
    assert [a, b] + rest == [a] + ([b] + rest);
  }

  lemma TakeOut(s: seq<BookEvent>, e: BookEvent) returns (rest: seq<BookEvent>)
    requires e in s
    ensures multiset([e] + rest) == multiset(s) && multiset(s) == multiset(rest) + multiset{e}
  {
    var i :| 0 <= i < |s| && s[i] == e;
    rest := s[..i] + s[i + 1..];
    assert s == s[..i] + ([e] + s[i + 1..]);
  }
}
