/** The multiset of all rows in a finite family of row sequences. */
module Bags {

  ghost function Bag<K, V>(m: map<K, seq<V>>): multiset<V>
    decreases |m|
  {
    if |m| == 0 then multiset{}
    else
      var k :| k in m;
      assert (m - {k}).Keys == m.Keys - {k};
      multiset(m[k]) + Bag(m - {k})
  }

  /** The bag does not depend on the order in which the family is taken apart. */
  lemma {:induction false} BagTake<K, V>(m: map<K, seq<V>>, k: K)
    requires k in m
    ensures Bag(m) == multiset(m[k]) + Bag(m - {k})
    decreases |m|
  {
    assert (m - {k}).Keys == m.Keys - {k};
    var j :| j in m && Bag(m) == multiset(m[j]) + Bag(m - {j});
    if j != k {
      assert (m - {j}).Keys == m.Keys - {j};
      BagTake(m - {j}, k);
      BagTake(m - {k}, j);
      assert m - {j} - {k} == m - {k} - {j};
    }
  }

  lemma BagCount<K, V>(m: map<K, seq<V>>, k: K)
    requires k in m
    ensures |Bag(m)| == |m[k]| + |Bag(m - {k})|
    ensures (m - {k}).Keys == m.Keys - {k} && |m - {k}| == |m| - 1
  {
    BagTake(m, k);
    assert (m - {k}).Keys == m.Keys - {k};
  }

  lemma BagPut<K, V>(m: map<K, seq<V>>, k: K, rows: seq<V>)
    requires k !in m
    ensures Bag(m[k := rows]) == Bag(m) + multiset(rows)
  {
    BagTake(m[k := rows], k);
    assert m[k := rows] - {k} == m;
  }

  lemma BagOfOne<K, V>(k: K, rows: seq<V>)
    ensures Bag(map[k := rows]) == multiset(rows)
  {
    var none: map<K, seq<V>> := map[];
    BagPut(none, k, rows);
    assert none[k := rows] == map[k := rows];
  }

  /** Adds one element to the row sequence of a key, creating the sequence when there is none. */
  function Push<K, V>(m: map<K, seq<V>>, k: K, v: V): map<K, seq<V>> {
    m[k := (if k in m then m[k] else []) + [v]]
  }

  lemma BagAfterPush<K, V>(m: map<K, seq<V>>, k: K, v: V)
    ensures Bag(Push(m, k, v)) == Bag(m) + multiset{v}
  {
    var rows := if k in m then m[k] else [];
    var rest := m - {k};
    assert Bag(m) == multiset(rows) + Bag(rest) by {
      if k in m {
        BagTake(m, k);
      } else {
        assert rest == m;
      }
    }
    assert Bag(Push(m, k, v)) == Bag(rest) + multiset(rows + [v]) by {
      assert Push(m, k, v) == rest[k := rows + [v]];
      BagPut(rest, k, rows + [v]);
    }
    PushedRows(Bag(m), Bag(rest), Bag(Push(m, k, v)), rows, v);
  }

  lemma PushedRows<V>(whole: multiset<V>, rest: multiset<V>, after: multiset<V>, rows: seq<V>, v: V)
    requires whole == multiset(rows) + rest && after == rest + multiset(rows + [v])
    ensures after == whole + multiset{v}
  {
    assert multiset(rows + [v]) == multiset(rows) + multiset{v};
  }

  /** Partitions the items by key, keeping their order within each key. */
  function Grouped<K, V>(items: seq<V>, key: V -> K): map<K, seq<V>> {
    if |items| == 0 then map[]
    else
      var last := items[|items| - 1];
      Push(Grouped(items[..|items| - 1], key), key(last), last)
  }

  /** Groups are not empty and hold exactly the items of their key. */
  lemma {:induction false} GroupedMembers<K, V>(items: seq<V>, key: V -> K)
    ensures forall k <- Grouped(items, key) :: |Grouped(items, key)[k]| > 0
    ensures forall k <- Grouped(items, key), v <- Grouped(items, key)[k] :: v in items && key(v) == k
    ensures forall v <- items :: key(v) in Grouped(items, key) && v in Grouped(items, key)[key(v)]
  {
    if |items| > 0 {
      var init, last := items[..|items| - 1], items[|items| - 1];
      GroupedMembers(init, key);
      assert items == init + [last];
      assert forall v :: v in items <==> v in init || v == last;
    }
  }

  /** Grouping neither loses nor duplicates an item. */
  lemma {:induction false} GroupingConserves<K, V>(items: seq<V>, key: V -> K)
    ensures Bag(Grouped(items, key)) == multiset(items)
  {
    if |items| > 0 {
      var init, last := items[..|items| - 1], items[|items| - 1];
      GroupingConserves(init, key);
      BagAfterPush(Grouped(init, key), key(last), last);
      assert init + [last] == items;
    }
  }
}
