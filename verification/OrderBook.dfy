/**
 The level-2 order book. `Book` is the meaning of a book: two finite maps from price to size plus
 the sequence bookkeeping. `L2Book` is the mutable structure that keeps running totals with checked
 64-bit arithmetic; its methods are proved against the meaning.
 */
module OrderBook {
  import opened Types

  type Levels = map<Price, U64>

  /** Number of prices on the grid 0..10000. */
  const GRID: nat := PRICE_SCALE + 1

  datatype Book = Book(bids: Levels, asks: Levels, sequence: U64, seqInitialized: bool, lastUpdateUs: U64)

  const EMPTY_BOOK := Book(map[], map[], 0, false, 0)

  datatype BookError =
    | AggregateOverflow(side: Side)
    | GapDetected(expected: U64, got: U64)
    | CrossedBook(bestBid: Price, bestAsk: Price)

  // ---------------------------------------------------------------------------------------------
  // Totals
  // ---------------------------------------------------------------------------------------------

  function SizeAt(m: Levels, price: nat): nat {
    if price in m then m[price] else 0
  }

  /** Sum of the sizes at all prices below `n`. */
  function SumTo(m: Levels, n: nat): nat {
    if n == 0 then 0 else SumTo(m, n - 1) + SizeAt(m, n - 1)
  }

  /** Sum of the sizes of all levels: every price lies on the grid. */
  function Total(m: Levels): nat {
    SumTo(m, GRID)
  }

  lemma {:induction false} SumAfterSet(m: Levels, price: Price, size: U64, n: nat)
    ensures SumTo(m[price := size], n) == SumTo(m, n) + if price < n then size - SizeAt(m, price) else 0
  {
    if n > 0 {
      SumAfterSet(m, price, size, n - 1);
    }
  }

  lemma {:induction false} SumAfterRemove(m: Levels, price: Price, n: nat)
    ensures SumTo(m - {price}, n) == SumTo(m, n) - if price < n then SizeAt(m, price) else 0
  {
    if n > 0 {
      SumAfterRemove(m, price, n - 1);
    }
  }

  lemma {:induction false} SumOfEmpty(n: nat)
    ensures SumTo(map[], n) == 0
  {
    if n > 0 {
      SumOfEmpty(n - 1);
    }
  }

  lemma {:induction false} LevelWithinSum(m: Levels, price: Price, n: nat)
    requires price < n
    ensures SizeAt(m, price) <= SumTo(m, n)
  {
    if price < n - 1 {
      LevelWithinSum(m, price, n - 1);
    }
  }

  // ---------------------------------------------------------------------------------------------
  // The meaning of snapshots and deltas
  // ---------------------------------------------------------------------------------------------

  /** The levels a snapshot's entry list denotes: the last non-zero entry of a price wins. */
  function LastWins(entries: seq<Level>): Levels {
    if |entries| == 0 then map[]
    else
      var rest := LastWins(entries[..|entries| - 1]);
      var last := entries[|entries| - 1];
      if last.size == 0 then rest else rest[last.price := last.size]
  }

  predicate Fits(m: Levels) {
    Total(m) < U64_LIMIT
  }

  /** Every prefix of the entry list denotes levels whose total fits 64 bits. */
  predicate PrefixesFit(entries: seq<Level>) {
    forall k | 0 <= k <= |entries| :: Fits(LastWins(entries[..k]))
  }

  function WithLevel(m: Levels, price: Price, size: U64): Levels {
    if size == 0 then m - {price} else m[price := size]
  }

  function ApplySnapshot(bids: seq<Level>, asks: seq<Level>, sequence: U64, timestampUs: U64): Result<Book, BookError> {
    if !PrefixesFit(bids) then Err(AggregateOverflow(Bid))
    else if !PrefixesFit(asks) then Err(AggregateOverflow(Ask))
    else Ok(Book(LastWins(bids), LastWins(asks), sequence, true, timestampUs))
  }

  function ApplyDelta(b: Book, side: Side, price: Price, size: U64, sequence: U64,
                      timestampUs: U64): Result<Book, BookError> {
    var levels := WithLevel(if side == Bid then b.bids else b.asks, price, size);
    if !Fits(levels) then Err(AggregateOverflow(side))
    else
      var moved := if side == Bid then b.(bids := levels) else b.(asks := levels);
      Ok(moved.(sequence := sequence, seqInitialized := true, lastUpdateUs := timestampUs))
  }

  /** What every reachable book satisfies: no empty levels, both totals representable. */
  predicate WellFormed(b: Book) {
    && (forall p <- b.bids :: b.bids[p] > 0)
    && (forall p <- b.asks :: b.asks[p] > 0)
    && Fits(b.bids)
    && Fits(b.asks)
  }

  lemma {:induction false} LastWinsPositive(entries: seq<Level>)
    ensures forall p <- LastWins(entries) :: LastWins(entries)[p] > 0
  {
    if |entries| > 0 {
      LastWinsPositive(entries[..|entries| - 1]);
    }
  }

  lemma SnapshotWellFormed(bids: seq<Level>, asks: seq<Level>, sequence: U64, timestampUs: U64)
    ensures var r := ApplySnapshot(bids, asks, sequence, timestampUs); r.Ok? ==> WellFormed(r.value)
  {
    LastWinsPositive(bids);
    LastWinsPositive(asks);
    assert bids[..|bids|] == bids && asks[..|asks|] == asks;
  }

  /** Entries of a later list override those of an earlier one, price by price. */
  lemma {:induction false} LastWinsConcat(a: seq<Level>, b: seq<Level>)
    ensures LastWins(a + b) == LastWins(a) + LastWins(b)
  {
    if |b| == 0 {
      assert a + b == a;
    } else {
      LastWinsConcat(a, b[..|b| - 1]);
      assert (a + b)[..|a + b| - 1] == a + b[..|b| - 1];
    }
  }

  lemma PrefixesFitOfConcat(a: seq<Level>, b: seq<Level>)
    requires PrefixesFit(a + b)
    ensures PrefixesFit(a)
  {
    forall k | 0 <= k <= |a| ensures Fits(LastWins(a[..k])) {
      assert (a + b)[..k] == a[..k];
    }
  }

  // ---------------------------------------------------------------------------------------------
  // Sorted views
  // ---------------------------------------------------------------------------------------------

  /** The levels priced below `n`, highest price first. */
  function Descending(m: Levels, n: nat): seq<Level>
    requires n <= GRID
  {
    if n == 0 then []
    else (if n - 1 in m then [Level(n - 1, m[n - 1])] else []) + Descending(m, n - 1)
  }

  /** The levels among the `n` highest prices of the grid, lowest price first. */
  function Ascending(m: Levels, n: nat): seq<Level>
    requires n <= GRID
  {
    if n == 0 then []
    else (if GRID - n in m then [Level(GRID - n, m[GRID - n])] else []) + Ascending(m, n - 1)
  }

  function First<T>(s: seq<T>): Option<T> {
    if |s| == 0 then None else Some(s[0])
  }

  function Take<T>(s: seq<T>, n: nat): seq<T> {
    if |s| <= n then s else s[..n]
  }

  lemma {:induction false} DescendingExact(m: Levels, n: nat)
    requires n <= GRID
    ensures forall l :: l in Descending(m, n) <==> l.price < n && l.price in m && m[l.price] == l.size
    ensures forall i, j | 0 <= i < j < |Descending(m, n)| :: Descending(m, n)[i].price > Descending(m, n)[j].price
  {
    if n > 0 {
      DescendingExact(m, n - 1);
      var rest := Descending(m, n - 1);
      assert forall i | 0 <= i < |rest| :: rest[i] in rest;
    }
  }

  lemma {:induction false} AscendingExact(m: Levels, n: nat)
    requires n <= GRID
    ensures forall l :: l in Ascending(m, n) <==> GRID - n <= l.price && l.price in m && m[l.price] == l.size
    ensures forall i, j | 0 <= i < j < |Ascending(m, n)| :: Ascending(m, n)[i].price < Ascending(m, n)[j].price
  {
    if n > 0 {
      AscendingExact(m, n - 1);
      var rest := Ascending(m, n - 1);
      assert forall i | 0 <= i < |rest| :: rest[i] in rest;
    }
  }

  function BestBid(b: Book): Option<Level> {
    First(Descending(b.bids, GRID))
  }

  function BestAsk(b: Book): Option<Level> {
    First(Ascending(b.asks, GRID))
  }

  function CheckSequence(b: Book, incoming: U64): Result<(), BookError> {
    var expected := (b.sequence + 1) % U64_LIMIT;
    if b.seqInitialized && incoming != expected then Err(GapDetected(expected, incoming)) else Ok(())
  }

  function CheckIntegrity(b: Book): Result<(), BookError> {
    var bid, ask := BestBid(b), BestAsk(b);
    if bid.Some? && ask.Some? && bid.value.price >= ask.value.price
    then Err(CrossedBook(bid.value.price, ask.value.price))
    else Ok(())
  }

  /** The best bid is the highest bid level, and absent exactly when there is none. */
  lemma BestBidIsHighest(b: Book)
    ensures BestBid(b).None? <==> b.bids == map[]
    ensures BestBid(b).Some? ==>
              var l := BestBid(b).value;
              l.price in b.bids && b.bids[l.price] == l.size && forall p <- b.bids :: p <= l.price
  {
    DescendingExact(b.bids, GRID);
    var s := Descending(b.bids, GRID);
    forall p | p in b.bids ensures |s| > 0 && p <= s[0].price {
      var l := Level(p, b.bids[p]);
      assert l in s;
    }
    assert |s| > 0 ==> s[0] in s;
  }

  lemma BestAskIsLowest(b: Book)
    ensures BestAsk(b).None? <==> b.asks == map[]
    ensures BestAsk(b).Some? ==>
              var l := BestAsk(b).value;
              l.price in b.asks && b.asks[l.price] == l.size && forall p <- b.asks :: l.price <= p
  {
    AscendingExact(b.asks, GRID);
    var s := Ascending(b.asks, GRID);
    forall p | p in b.asks ensures |s| > 0 && s[0].price <= p {
      var l := Level(p, b.asks[p]);
      assert l in s;
    }
    assert |s| > 0 ==> s[0] in s;
  }

  /** Some bid is priced at or above some ask. */
  ghost predicate Crossed(b: Book) {
    exists p, q :: p in b.bids && q in b.asks && p >= q
  }

  /** The integrity check fails exactly when the book is crossed. */
  lemma IntegrityMeansUncrossed(b: Book)
    ensures CheckIntegrity(b).Err? <==> Crossed(b)
    ensures CheckIntegrity(b).Err? ==>
              && BestBid(b).Some? && BestAsk(b).Some?
              && CheckIntegrity(b).error == CrossedBook(BestBid(b).value.price, BestAsk(b).value.price)
  {
    BestBidIsHighest(b);
    BestAskIsLowest(b);
  }

  // ---------------------------------------------------------------------------------------------
  // The mutable book
  // ---------------------------------------------------------------------------------------------

  class L2Book {
    var bids: Levels
    var asks: Levels
    var sequence: U64
    var lastUpdateUs: U64
    var totalBidRaw: U64
    var totalAskRaw: U64
    var seqInitialized: bool

    /** The running totals are the sums of the levels, and no level is empty. */
    ghost predicate Valid()
      reads this
    {
      && WellFormed(Value())
      && totalBidRaw == Total(bids)
      && totalAskRaw == Total(asks)
    }

    function Value(): Book
      reads this
    {
      Book(bids, asks, sequence, seqInitialized, lastUpdateUs)
    }

    constructor ()
      ensures Valid() && Value() == EMPTY_BOOK
    {
      bids, asks, sequence, lastUpdateUs := map[], map[], 0, 0;
      totalBidRaw, totalAskRaw, seqInitialized := 0, 0, false;
      SumOfEmpty(GRID);
    }

    /** Folds one side's entries into fresh levels with a checked running total. */
    static method CollectSide(entries: seq<Level>) returns (levels: Levels, total: U64, overflow: bool)
      ensures overflow <==> !PrefixesFit(entries)
      ensures !overflow ==> levels == LastWins(entries) && total == Total(levels)
    {
      levels, total, overflow := map[], 0, false;
      SumOfEmpty(GRID);
      for i := 0 to |entries|
        invariant levels == LastWins(entries[..i]) && total == Total(levels)
        invariant forall k | 0 <= k <= i :: Fits(LastWins(entries[..k]))
      {
        var entry := entries[i];
        assert entries[..i + 1][..i] == entries[..i];
        if entry.size != 0 {
          var oldRaw := SizeAt(levels, entry.price);
          LevelWithinSum(levels, entry.price, GRID);
          SumAfterSet(levels, entry.price, entry.size, GRID);
          levels := levels[entry.price := entry.size];
          if total - oldRaw + entry.size >= U64_LIMIT {
            assert !Fits(LastWins(entries[..i + 1]));
            return levels, total, true;
          }
          total := total - oldRaw + entry.size;
        }
      }
      assert entries[..|entries|] == entries;
    }

    /** Replaces the whole book, or reports the overflowing side and changes nothing. */
    method TryApplySnapshot(newBids: seq<Level>, newAsks: seq<Level>, seqNo: U64, timestampUs: U64)
      returns (r: Result<(), BookError>)
      requires Valid()
      modifies this
      ensures Valid()
      ensures r.Err? ==> Value() == old(Value()) && ApplySnapshot(newBids, newAsks, seqNo, timestampUs) == Err(r.error)
      ensures r.Ok? ==> ApplySnapshot(newBids, newAsks, seqNo, timestampUs) == Ok(Value())
    {
      SnapshotWellFormed(newBids, newAsks, seqNo, timestampUs);
      var nextBids, nextBidRaw, bidOverflow := CollectSide(newBids);
      if bidOverflow {
        return Err(AggregateOverflow(Bid));
      }
      var nextAsks, nextAskRaw, askOverflow := CollectSide(newAsks);
      if askOverflow {
        return Err(AggregateOverflow(Ask));
      }
      bids, asks, totalBidRaw, totalAskRaw := nextBids, nextAsks, nextBidRaw, nextAskRaw;
      sequence, seqInitialized, lastUpdateUs := seqNo, true, timestampUs;
      return Ok(());
    }

    /** Sets or removes one level, or reports the overflowing side and changes nothing. */
    method TryApplyDelta(side: Side, price: Price, size: U64, seqNo: U64, timestampUs: U64)
      returns (r: Result<(), BookError>)
      requires Valid()
      modifies this
      ensures Valid()
      ensures r.Err? ==>
                Value() == old(Value()) && ApplyDelta(Value(), side, price, size, seqNo, timestampUs) == Err(r.error)
      ensures r.Ok? ==> ApplyDelta(old(Value()), side, price, size, seqNo, timestampUs) == Ok(Value())
    {
      hide Total;
      TotalAfterDelta(if side == Bid then bids else asks, price, size);
      match side {
        case Bid =>
          if size == 0 {
            if price in bids {
              totalBidRaw := totalBidRaw - bids[price];
              bids := bids - {price};
            } else {
              assert bids - {price} == bids;
            }
          } else {
            var nextTotal := totalBidRaw - SizeAt(bids, price) + size;
            if nextTotal >= U64_LIMIT {
              return Err(AggregateOverflow(Bid));
            }
            bids, totalBidRaw := bids[price := size], nextTotal;
          }
        case Ask =>
          if size == 0 {
            if price in asks {
              totalAskRaw := totalAskRaw - asks[price];
              asks := asks - {price};
            } else {
              assert asks - {price} == asks;
            }
          } else {
            var nextTotal := totalAskRaw - SizeAt(asks, price) + size;
            if nextTotal >= U64_LIMIT {
              return Err(AggregateOverflow(Ask));
            }
            asks, totalAskRaw := asks[price := size], nextTotal;
          }
      }
      sequence, seqInitialized, lastUpdateUs := seqNo, true, timestampUs;
      return Ok(());
    }
  }

  lemma TotalAfterDelta(m: Levels, price: Price, size: U64)
    ensures Total(m[price := size]) == Total(m) + size - SizeAt(m, price)
    ensures Total(m - {price}) == Total(m) - SizeAt(m, price)
  {
    SumAfterSet(m, price, size, GRID);
    SumAfterRemove(m, price, GRID);
  }

  /** A delta leaves a well-formed book well formed, and removing a level never fails. */
  lemma DeltaWellFormed(b: Book, side: Side, price: Price, size: U64, sequence: U64, timestampUs: U64)
    requires WellFormed(b)
    ensures var r := ApplyDelta(b, side, price, size, sequence, timestampUs); r.Ok? ==> WellFormed(r.value)
    ensures size == 0 ==> ApplyDelta(b, side, price, size, sequence, timestampUs).Ok?
  {
    SumAfterRemove(b.bids, price, GRID);
    SumAfterRemove(b.asks, price, GRID);
  }
}
