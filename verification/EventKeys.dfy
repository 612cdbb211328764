/** The comparator, read off the events: eight keys compared in turn. */
module EventKeys {
  import opened Types
  import opened EventOrder

  /** Dictionary order: a proper prefix, or smaller at the first difference. */
  ghost predicate TextBefore(a: string, b: string) {
    exists k | 0 <= k < |b| :: k <= |a| && a[..k] == b[..k] && (k < |a| ==> a[k] < b[k])
  }

  lemma {:induction false} TextBeforeIff(a: string, b: string)
    ensures CompareText(a, b) == Less <==> TextBefore(a, b)
    ensures CompareText(a, b) == Equal <==> a == b
  {
    if |a| > 0 && |b| > 0 {
      TextBeforeIff(a[1..], b[1..]);
      assert a == [a[0]] + a[1..] && b == [b[0]] + b[1..];
      TextBeforeStep(a, b);
    } else if |a| == 0 && |b| > 0 {
      assert a[..0] == b[..0];
    }
  }

  lemma TextBeforeStep(a: string, b: string)
    requires |a| > 0 && |b| > 0
    ensures TextBefore(a, b) <==> a[0] < b[0] || (a[0] == b[0] && TextBefore(a[1..], b[1..]))
  {
    if k :| 0 <= k < |b| && k <= |a| && a[..k] == b[..k] && (k < |a| ==> a[k] < b[k]) {
      if k > 0 {
        assert a[..k][0] == b[..k][0] && a[..k][1..] == a[1..][..k - 1] && b[..k][1..] == b[1..][..k - 1];
      }
    }
    if a[0] < b[0] {
      assert a[..0] == b[..0];
    } else if a[0] == b[0] && TextBefore(a[1..], b[1..]) {
      var k :| 0 <= k < |b| - 1 && k <= |a| - 1 && a[1..][..k] == b[1..][..k]
          && (k < |a| - 1 ==> a[1..][k] < b[1..][k]);
      assert a[..k + 1] == [a[0]] + a[1..][..k] && b[..k + 1] == [b[0]] + b[1..][..k];
    }
  }

  /** An absent id comes before any present one. */
  ghost predicate IdBefore(a: Option<string>, b: Option<string>) {
    b.Some? && (a.None? || TextBefore(a.value, b.value))
  }

  lemma IdBeforeIff(a: Option<string>, b: Option<string>)
    ensures CompareId(a, b) == Less <==> IdBefore(a, b)
    ensures CompareId(a, b) == Equal <==> a == b
  {
    hide CompareText, TextBefore;
    if a.Some? && b.Some? {
      TextBeforeIff(a.value, b.value);
    }
  }

  /**
   The numeric keys: the replay clock's time, where an event without an exchange time counts by its receive time;
   on the exchange clock also the receive time; the ordinal, if absent as large as it can be; the sequence, if
   absent zero; bids before asks; price; and size.
   */
  function Keys(e: BookEvent, mode: ReplayMode): (keys: seq<int>)
    ensures |keys| == 7
  {
    var p := e.provenance;
    [if mode == RecvTime || p.exchangeTimestampUs == 0 then p.recvTimestampUs else p.exchangeTimestampUs,
     if mode == ExchangeTime then p.recvTimestampUs else 0,
     if p.ingestOrdinal == None then 0xffff_ffff_ffff_ffff else p.ingestOrdinal.value,
     if p.sequence == None then 0 else p.sequence.value,
     if e.side == Bid then 0 else 1,
     e.price,
     e.size]
  }

  /** The first key that differs is smaller. */
  ghost predicate KeysBefore(x: seq<int>, y: seq<int>)
    requires |x| == |y|
  {
    exists k | 0 <= k < |x| :: x[k] < y[k] && forall j | 0 <= j < k :: x[j] == y[j]
  }

  function CompareKeys(x: seq<int>, y: seq<int>, i: nat): Ordering
    requires i <= |x| == |y|
    decreases |x| - i
  {
    if i == |x| then Equal else CompareInt(x[i], y[i]).Then(CompareKeys(x, y, i + 1))
  }

  lemma {:induction false} KeysBeforeIff(x: seq<int>, y: seq<int>, i: nat)
    requires i <= |x| == |y| && forall j | 0 <= j < i :: x[j] == y[j]
    ensures CompareKeys(x, y, i) == Less <==> KeysBefore(x, y)
    ensures CompareKeys(x, y, i) == Equal <==> x == y
    decreases |x| - i
  {
    if i < |x| && x[i] == y[i] {
      KeysBeforeIff(x, y, i + 1);
    }
  }

  lemma SevenKeys(x: seq<int>, y: seq<int>)
    requires |x| == |y| == 7
    ensures CompareKeys(x, y, 0)
            == CompareInt(x[0], y[0]).Then(CompareInt(x[1], y[1])).Then(CompareInt(x[2], y[2]))
               .Then(CompareInt(x[3], y[3]))
               .Then(CompareInt(x[4], y[4]).Then(CompareInt(x[5], y[5])).Then(CompareInt(x[6], y[6])))
  {
    hide CompareInt;
    assert CompareKeys(x, y, 6) == CompareInt(x[6], y[6]).Then(CompareKeys(x, y, 7));
    assert CompareKeys(x, y, 4) == CompareInt(x[4], y[4]).Then(CompareInt(x[5], y[5]).Then(CompareKeys(x, y, 6)));
    assert CompareKeys(x, y, 2) == CompareInt(x[2], y[2]).Then(CompareInt(x[3], y[3]).Then(CompareKeys(x, y, 4)));
  }

  lemma CompareIsByKeys(a: BookEvent, b: BookEvent, mode: ReplayMode)
    ensures Compare(a, b, mode) == CompareKeys(Keys(a, mode), Keys(b, mode), 0)
                                   .Then(CompareId(a.provenance.sourceEventId, b.provenance.sourceEventId))
  {
    hide CompareId, CompareInt, CompareKeys;
    SevenKeys(Keys(a, mode), Keys(b, mode));
  }

  /**
   One event comes before another if and only if the first of the seven numeric keys that differs is smaller,
   or all agree and its id comes first; and they compare equal if and only if all eight keys agree.
   */
  lemma BeforeIff(a: BookEvent, b: BookEvent, mode: ReplayMode)
    ensures var x, y, i, j := Keys(a, mode), Keys(b, mode), a.provenance.sourceEventId, b.provenance.sourceEventId;
            && (Compare(a, b, mode) == Less <==> KeysBefore(x, y) || (x == y && IdBefore(i, j)))
            && (Compare(a, b, mode) == Equal <==> x == y && i == j)
            && (Before(a, b, mode) <==> KeysBefore(x, y) || (x == y && (i == j || IdBefore(i, j))))
  {
    hide Keys, CompareId, IdBefore, Compare;
    CompareIsByKeys(a, b, mode);
    KeysBeforeIff(Keys(a, mode), Keys(b, mode), 0);
    IdBeforeIff(a.provenance.sourceEventId, b.provenance.sourceEventId);
  }
}
