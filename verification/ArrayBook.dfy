/**
 The dense-array alternative to the map book: one cell per price, an epoch stamp that makes clearing
 constant-time, and a cursor on the best price.
 */
module ArrayBook {
  import opened Types
  import opened OrderBook

  class ArraySide {
    const isBid: bool
    const sizes: array<U64>
    const stamp: array<nat>
    var epoch: nat
    var best: Option<Price>

    /** A cell counts only when its stamp is the current epoch. */
    function Live(t: nat): U64
      requires t < sizes.Length && t < stamp.Length
      reads `epoch, sizes, stamp
    {
      if stamp[t] == epoch then sizes[t] else 0
    }

    /** No stamp is from the future, and the cursor is the best live price, if any. */
    ghost predicate Valid()
      reads this, sizes, stamp
    {
      && sizes.Length == GRID && stamp.Length == GRID && sizes as object != stamp
      && (forall t | 0 <= t < GRID :: stamp[t] <= epoch)
      && (best.None? ==> forall t | 0 <= t < GRID :: Live(t) == 0)
      && (best.Some? ==> Live(best.value) > 0 && NoneBetter(best.value))
    }

    /** No live price is strictly better than `p`. */
    ghost predicate NoneBetter(p: Price)
      requires sizes.Length == GRID && stamp.Length == GRID
      reads `epoch, sizes, stamp
    {
      forall t | 0 <= t < GRID :: Live(t) > 0 ==> !Better(t, p)
    }

    /** Whether price `a` is strictly better than price `b` on this side. */
    predicate Better(a: int, b: int) {
      if isBid then a > b else a < b
    }

    ghost function Levels(): Levels
      requires Valid()
      reads this, sizes, stamp
    {
      map t: Price | 0 <= t < GRID && Live(t) > 0 :: Live(t)
    }

    constructor (isBid: bool)
      ensures Valid() && this.isBid == isBid && Levels() == map[]
      ensures fresh(sizes) && fresh(stamp)
    {
      this.isBid := isBid;
      sizes := new U64[GRID](i => 0);
      stamp := new nat[GRID](i => 0);
      epoch, best := 1, None;
    }

    /** Empties the side without touching a cell. */
    method Clear()
      requires Valid()
      modifies this
      ensures Valid() && Levels() == map[]
    {
      epoch, best := epoch + 1, None;
    }

    /** Sets one level, or removes it when the size is zero, and repairs the cursor. */
    method Set(tick: Price, size: U64)
      requires Valid()
      modifies this, sizes, stamp
      ensures Valid() && Levels() == WithLevel(old(Levels()), tick, size)
    {
      ghost var before := Levels();
      assert forall t <- before :: best.Some? && !Better(t, best.value);
      stamp[tick] := epoch;
      sizes[tick] := size;
      assert forall t | 0 <= t < GRID && t != tick :: Live(t) == if t in before then before[t] else 0;
      MoveCursor(tick);
      assert forall t: Price :: t in Levels() <==> Live(t) > 0;
    }

    /** Puts the cursor back on the best live price after the cell at `tick` changed. */
    method MoveCursor(tick: Price)
      requires sizes.Length == GRID && stamp.Length == GRID && sizes as object != stamp
      requires forall t | 0 <= t < GRID :: stamp[t] <= epoch
      requires forall t | 0 <= t < GRID && t != tick && Live(t) > 0 :: best.Some? && !Better(t, best.value)
      requires best.Some? && best.value != tick ==> Live(best.value) > 0
      requires best.Some? && Live(tick) == 0 && best.value != tick ==> NoneBetter(best.value)
      modifies this`best
      ensures Valid()
    {
      if Live(tick) > 0 {
        best := Some(if best.None? then tick else if Better(tick, best.value) then tick else best.value);
      } else if best == Some(tick) {
        best := ScanWorse(tick);
      }
    }

    /** The next live price in the worse direction. */
    method ScanWorse(tick: Price) returns (next: Option<Price>)
      requires sizes.Length == GRID && stamp.Length == GRID
      ensures next.Some? ==> Better(tick, next.value) && Live(next.value) > 0
      ensures forall t | 0 <= t < GRID :: Live(t) > 0 && Better(tick, t) ==> next.Some? && !Better(t, next.value)
    {
      if isBid {
        var t: int := tick - 1;
        while t >= 0
          invariant -1 <= t < tick
          invariant forall u | t < u < tick :: Live(u) == 0
        {
          if Live(t) > 0 {
            return Some(t);
          }
          t := t - 1;
        }
      } else {
        var t: int := tick + 1;
        while t < GRID
          invariant tick < t <= GRID
          invariant forall u | tick < u < t :: Live(u) == 0
        {
          if Live(t) > 0 {
            return Some(t);
          }
          t := t + 1;
        }
      }
      return None;
    }

    function Best(): Option<Level>
      requires Valid()
      reads this, sizes, stamp
    {
      if best.None? then None else Some(Level(best.value, Live(best.value)))
    }

    /** The best `k` levels, scanning from the cursor towards worse prices. */
    method TopK(k: nat) returns (out: seq<Level>)
      requires Valid()
      ensures out == Take(Sorted(Levels(), isBid), k)
    {
      out := [];
      CursorIsFirst();
      if best.None? {
        return;
      }
      if isBid {
        out := TopBids(k);
      } else {
        out := TopAsks(k);
      }
    }

    method TopBids(k: nat) returns (out: seq<Level>)
      requires Valid() && isBid && best.Some?
      ensures out == Take(Descending(Levels(), GRID), k)
    {
      hide Descending;
      out := [];
      ghost var levels := Levels();
      ghost var whole := Descending(levels, GRID);
      SkipAbove(levels, best.value + 1);
      var t: int := best.value;
      while t >= 0 && |out| < k
        invariant -1 <= t <= best.value
        invariant out + Descending(levels, t + 1) == whole && |out| <= k
      {
        var size := Live(t);
        DescendingStep(levels, t, out);
        assert t in levels <==> size > 0;
        if size > 0 {
          out := out + [Level(t, size)];
        }
        t := t - 1;
      }
      NoneBelow(levels);
      assert out + [] == out;
    }

    method TopAsks(k: nat) returns (out: seq<Level>)
      requires Valid() && !isBid && best.Some?
      ensures out == Take(Ascending(Levels(), GRID), k)
    {
      hide Ascending;
      out := [];
      ghost var levels := Levels();
      ghost var whole := Ascending(levels, GRID);
      SkipBelow(levels, GRID - best.value);
      var t: int := best.value;
      while t < GRID && |out| < k
        invariant best.value <= t <= GRID
        invariant out + Ascending(levels, GRID - t) == whole && |out| <= k
      {
        var size := Live(t);
        AscendingStep(levels, GRID - t - 1, out);
        assert t in levels <==> size > 0;
        if size > 0 {
          out := out + [Level(t, size)];
        }
        t := t + 1;
      }
      NoneBelow(levels);
      assert out + [] == out;
    }

    /** The cursor agrees with the first level of the sorted map side. */
    lemma CursorIsFirst()
      requires Valid()
      ensures Best() == First(Sorted(Levels(), isBid))
      ensures best.None? ==> Sorted(Levels(), isBid) == []
    {
      var levels := Levels();
      if best.None? {
        assert levels == map[];
        EmptySorted();
      } else if isBid {
        SkipAbove(levels, best.value + 1);
      } else {
        SkipBelow(levels, GRID - best.value);
      }
    }
  }

  /** A side's levels, best price first. */
  function Sorted(m: Levels, isBid: bool): seq<Level> {
    if isBid then Descending(m, GRID) else Ascending(m, GRID)
  }

  lemma DescendingStep(m: Levels, n: nat, out: seq<Level>)
    requires n < GRID
    ensures out + Descending(m, n + 1) == (if n in m then out + [Level(n, m[n])] else out) + Descending(m, n)
  {
  }

  lemma AscendingStep(m: Levels, n: nat, out: seq<Level>)
    requires n < GRID
    ensures var p := GRID - n - 1;
            out + Ascending(m, n + 1) == (if p in m then out + [Level(p, m[p])] else out) + Ascending(m, n)
  {
  }

  lemma NoneBelow(m: Levels)
    ensures Descending(m, 0) == [] && Ascending(m, 0) == []
  {
  }

  lemma EmptySorted()
    ensures forall isBid :: Sorted(map[], isBid) == []
  {
    forall isBid ensures Sorted(map[], isBid) == [] {
      SkipAbove(map[], 0);
      SkipBelow(map[], 0);
    }
  }

  lemma {:induction false} SkipAboveFrom(m: Levels, n: nat, top: nat)
    requires n <= top <= GRID && forall p <- m :: p < n
    ensures Descending(m, top) == Descending(m, n)
  {
    if n < top {
      SkipAboveFrom(m, n, top - 1);
    }
  }

  lemma SkipAbove(m: Levels, n: nat)
    requires n <= GRID && forall p <- m :: p < n
    ensures Descending(m, GRID) == Descending(m, n)
  {
    SkipAboveFrom(m, n, GRID);
  }

  lemma {:induction false} SkipBelowFrom(m: Levels, n: nat, top: nat)
    requires n <= top <= GRID && forall p <- m :: GRID - n <= p
    ensures Ascending(m, top) == Ascending(m, n)
  {
    if n < top {
      SkipBelowFrom(m, n, top - 1);
    }
  }

  lemma SkipBelow(m: Levels, n: nat)
    requires n <= GRID && forall p <- m :: GRID - n <= p
    ensures Ascending(m, GRID) == Ascending(m, n)
  {
    SkipBelowFrom(m, n, GRID);
  }

  // ---------------------------------------------------------------------------------------------
  // The two-sided book
  // ---------------------------------------------------------------------------------------------

  /** What setting the entries one by one leaves: a zero entry removes the level. */
  function SetAll(entries: seq<Level>): Levels {
    if |entries| == 0 then map[]
    else
      var last := entries[|entries| - 1];
      WithLevel(SetAll(entries[..|entries| - 1]), last.price, last.size)
  }

  class ArrayBook {
    const bids: ArraySide
    const asks: ArraySide

    ghost function Footprint(): set<object> {
      {bids, bids.sizes, bids.stamp, asks, asks.sizes, asks.stamp}
    }

    ghost predicate Valid()
      reads Footprint()
    {
      && bids.Valid() && asks.Valid() && bids.isBid && !asks.isBid
      && bids != asks && bids.sizes != asks.sizes && bids.stamp != asks.stamp
      && bids.sizes as object != asks.stamp && bids.stamp as object != asks.sizes
    }

    constructor ()
      ensures Valid() && bids.Levels() == map[] && asks.Levels() == map[]
    {
      bids := new ArraySide(true);
      asks := new ArraySide(false);
    }

    method ApplySnapshot(newBids: seq<Level>, newAsks: seq<Level>)
      requires Valid()
      modifies Footprint()
      ensures Valid() && bids.Levels() == SetAll(newBids) && asks.Levels() == SetAll(newAsks)
    {
      hide SetAll;
      bids.Clear();
      asks.Clear();
      SetEach(bids, newBids);
      SetEach(asks, newAsks);
    }

    method ApplyDelta(side: Side, price: Price, size: U64)
      requires Valid()
      modifies Footprint()
      ensures Valid()
      ensures bids.Levels() == if side == Bid then WithLevel(old(bids.Levels()), price, size) else old(bids.Levels())
      ensures asks.Levels() == if side == Ask then WithLevel(old(asks.Levels()), price, size) else old(asks.Levels())
    {
      match side
      case Bid => bids.Set(price, size);
      case Ask => asks.Set(price, size);
    }
  }

  method SetEach(side: ArraySide, entries: seq<Level>)
    requires side.Valid() && side.Levels() == map[]
    modifies side, side.sizes, side.stamp
    ensures side.Valid() && side.Levels() == SetAll(entries)
  {
    for i := 0 to |entries|
      invariant side.Valid() && side.Levels() == SetAll(entries[..i])
    {
      assert entries[..i + 1][..i] == entries[..i];
      side.Set(entries[i].price, entries[i].size);
    }
    assert entries[..|entries|] == entries;
  }

  // ---------------------------------------------------------------------------------------------
  // Agreement with the map book
  // ---------------------------------------------------------------------------------------------

  /** The last entry for this price has size zero. */
  predicate EndsInZero(entries: seq<Level>, price: Price) {
    exists j | 0 <= j < |entries| ::
      entries[j].price == price && entries[j].size == 0 && forall k | j < k < |entries| :: entries[k].price != price
  }

  lemma {:induction false} SetAllVersusLastWins(entries: seq<Level>, p: Price)
    ensures p in SetAll(entries) <==> p in LastWins(entries) && !EndsInZero(entries, p)
    ensures p in SetAll(entries) ==> SetAll(entries)[p] == LastWins(entries)[p]
  {
    if |entries| > 0 {
      SetAllVersusLastWins(entries[..|entries| - 1], p);
      EndsInZeroAfterPush(entries, p);
    }
  }

  lemma EndsInZeroAfterPush(entries: seq<Level>, p: Price)
    requires |entries| > 0
    ensures var init, last := entries[..|entries| - 1], entries[|entries| - 1];
            EndsInZero(entries, p) <==> if last.price == p then last.size == 0 else EndsInZero(init, p)
  {
    var n := |entries| - 1;
    var init := entries[..n];
    if entries[n].price != p {
      if j :| 0 <= j < n && init[j].price == p && init[j].size == 0 && forall k | j < k < n :: init[k].price != p {
        assert entries[j].price == p && forall k | j < k < |entries| :: entries[k].price != p;
      }
      if j :| 0 <= j < |entries| && entries[j].price == p && entries[j].size == 0 && forall k | j < k < |entries| ::
         entries[k].price != p {
        assert init[j].price == p && forall k | j < k < n :: init[k].price != p;
      }
    } else if entries[n].size == 0 {
      assert EndsInZero(entries, p);
    }
  }

  /**
   The two books read a snapshot's entry list alike if and only if no price with a non-zero entry has a
   zero size as its last one: the map book skips such an entry, the array book removes the level.
   */
  lemma SnapshotsAgreeIff(entries: seq<Level>)
    ensures SetAll(entries) == LastWins(entries) <==> forall p <- LastWins(entries) :: !EndsInZero(entries, p)
  {
    forall p: Price
      ensures p in SetAll(entries) <==> p in LastWins(entries) && !EndsInZero(entries, p)
      ensures p in SetAll(entries) ==> SetAll(entries)[p] == LastWins(entries)[p]
    {
      SetAllVersusLastWins(entries, p);
    }
    if forall p <- LastWins(entries) :: !EndsInZero(entries, p) {
      assert forall p: Price :: p in SetAll(entries) <==> p in LastWins(entries);
    }
  }

  datatype BookOp = SnapshotOp(bids: seq<Level>, asks: seq<Level>) | DeltaOp(side: Side, price: Price, size: U64)

  /** What one operation does to the map book; a rejected operation changes nothing. */
  function MapStep(b: Book, op: BookOp): Book {
    var r := match op
      case SnapshotOp(bids, asks) => ApplySnapshot(bids, asks, b.sequence, b.lastUpdateUs)
      case DeltaOp(side, price, size) => ApplyDelta(b, side, price, size, b.sequence, b.lastUpdateUs);
    if r.Ok? then r.value else b
  }

  /** What one operation does to the two array sides. */
  function ArrayStep(bids: Levels, asks: Levels, op: BookOp): (Levels, Levels) {
    match op
    case SnapshotOp(newBids, newAsks) => (SetAll(newBids), SetAll(newAsks))
    case DeltaOp(side, price, size) =>
      if side == Bid then (WithLevel(bids, price, size), asks) else (bids, WithLevel(asks, price, size))
  }

  /** The operation fits the totals, and its entries are ones both books read alike. */
  predicate Agreeable(b: Book, op: BookOp) {
    match op
    case SnapshotOp(bids, asks) =>
      && PrefixesFit(bids) && PrefixesFit(asks)
      && (forall p <- LastWins(bids) :: !EndsInZero(bids, p))
      && (forall p <- LastWins(asks) :: !EndsInZero(asks, p))
    case DeltaOp(side, price, size) => Fits(WithLevel(if side == Bid then b.bids else b.asks, price, size))
  }

  function MapRun(b: Book, ops: seq<BookOp>): Book
    decreases ops
  {
    if |ops| == 0 then b else MapRun(MapStep(b, ops[0]), ops[1..])
  }

  function ArrayRun(bids: Levels, asks: Levels, ops: seq<BookOp>): (Levels, Levels)
    decreases ops
  {
    if |ops| == 0 then (bids, asks)
    else var (b, a) := ArrayStep(bids, asks, ops[0]); ArrayRun(b, a, ops[1..])
  }

  predicate AllAgreeable(b: Book, ops: seq<BookOp>)
    decreases ops
  {
    |ops| > 0 ==> Agreeable(b, ops[0]) && AllAgreeable(MapStep(b, ops[0]), ops[1..])
  }

  /** Over any run of agreeable operations, both books hold the same levels. */
  lemma {:induction false} RunsAgree(b: Book, ops: seq<BookOp>)
    requires AllAgreeable(b, ops)
    ensures ArrayRun(b.bids, b.asks, ops) == (MapRun(b, ops).bids, MapRun(b, ops).asks)
    decreases ops
  {
    if |ops| > 0 {
      if ops[0].SnapshotOp? {
        SnapshotsAgreeIff(ops[0].bids);
        SnapshotsAgreeIff(ops[0].asks);
      }
      RunsAgree(MapStep(b, ops[0]), ops[1..]);
    }
  }
}
