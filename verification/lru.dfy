/** The least-recently-used cache under the limiter: a recency order, front first, beside a map. */
module LruCaches {

  datatype Option<+T> = None | Some(value: T)

  function Elements(order: seq<string>): set<string> {
    if order == [] then {} else {order[0]} + Elements(order[1..])
  }

  ghost predicate Distinct(order: seq<string>) {
    order == [] || (order[0] !in Elements(order[1..]) && Distinct(order[1..]))
  }

  datatype Lru<V> = Lru(order: seq<string>, entries: map<string, V>) {
    /** No key twice, the order lists exactly the keys of the map, and the size is respected. */
    ghost predicate Valid(size: nat) {
      Distinct(order) && Elements(order) == entries.Keys && |order| <= size
    }
  }

  /** The order without one key. */
  function Without(order: seq<string>, key: string): (r: seq<string>)
    ensures key !in Elements(order) ==> r == order
  {
    if order == [] then []
    else if order[0] == key then Without(order[1..], key)
    else [order[0]] + Without(order[1..], key)
  }

  /** A hit moves the key to the front. */
  function Touch<V>(l: Lru<V>, key: string): Lru<V> {
    Lru([key] + Without(l.order, key), l.entries)
  }

  /** A new key goes to the front; if that makes one too many, the key at the back goes. */
  function Add<V>(l: Lru<V>, size: nat, key: string, v: V): (Lru<V>, Option<(string, V)>)
    requires l.Valid(size) && key !in l.entries && size >= 1
  {
    if |l.order| < size then
      (Lru([key] + l.order, l.entries[key := v]), None)
    else
      var n := |l.order| - 1;
      var oldest := l.order[n];
      ElementsOf(l.order, oldest);
      (Lru([key] + l.order[..n], l.entries[key := v] - {oldest}), Some((oldest, l.entries[oldest])))
  }

  lemma {:induction false} ElementsOf(order: seq<string>, key: string)
    ensures key in Elements(order) <==> key in order
  {
    if order != [] {
      ElementsOf(order[1..], key);
      assert order == [order[0]] + order[1..];
    }
  }

  lemma {:induction false} DistinctAt(order: seq<string>, i: nat, j: nat)
    requires Distinct(order) && i < j < |order|
    ensures order[i] != order[j]
  {
    if i == 0 {
      ElementsOf(order[1..], order[j]);
      assert order[1..][j - 1] == order[j];
    } else {
      DistinctAt(order[1..], i - 1, j - 1);
    }
  }

  lemma {:induction false} DistinctSize(order: seq<string>)
    requires Distinct(order)
    ensures |Elements(order)| == |order|
  {
    if order != [] {
      DistinctSize(order[1..]);
    }
  }

  lemma {:induction false} DropOldest(order: seq<string>)
    requires Distinct(order) && order != []
    ensures var n := |order| - 1;
      Distinct(order[..n]) && Elements(order[..n]) == Elements(order) - {order[n]}
  {
    var n := |order| - 1;
    if n > 0 {
      DropOldest(order[1..]);
      assert order[..n][1..] == order[1..][..n - 1];
      assert order[1..][n - 1] == order[n];
      DistinctAt(order, 0, n);
    }
  }

  lemma {:induction false} WithoutKeepsDistinct(order: seq<string>, key: string)
    requires Distinct(order)
    ensures Distinct(Without(order, key)) && Elements(Without(order, key)) == Elements(order) - {key}
    ensures key in Elements(order) ==> |Without(order, key)| == |order| - 1
  {
    if order != [] {
      WithoutKeepsDistinct(order[1..], key);
      if order[0] != key {
        assert Without(order, key)[1..] == Without(order[1..], key);
      }
    }
  }

  ghost predicate Ranked(order: seq<string>, rank: string -> int) {
    forall i, j :: 0 <= i < j < |order| ==> rank(order[i]) > rank(order[j])
  }

  lemma {:induction false} WithoutIsPart(order: seq<string>, key: string)
    ensures forall k :: k in Without(order, key) ==> k in order && k != key
  {
    if order != [] {
      WithoutIsPart(order[1..], key);
    }
  }

  lemma RestIsRanked(order: seq<string>, rank: string -> int)
    requires Ranked(order, rank) && order != []
    ensures Ranked(order[1..], rank) && forall k | k in order[1..] :: rank(order[0]) > rank(k)
  {
    var rest := order[1..];
    assert forall i :: 0 <= i < |rest| ==> rest[i] == order[i + 1];
  }

  /** Whatever ranking the recency order respects, removing a key keeps the rest in that order. */
  lemma {:induction false} WithoutKeepsOrder(order: seq<string>, key: string, rank: string -> int)
    requires Ranked(order, rank)
    ensures Ranked(Without(order, key), rank)
    ensures forall k :: k in Without(order, key) ==> k in order && k != key
  {
    WithoutIsPart(order, key);
    if order != [] {
      RestIsRanked(order, rank);
      WithoutKeepsOrder(order[1..], key, rank);
      WithoutIsPart(order[1..], key);
    }
  }

  lemma TouchKeepsValid<V>(l: Lru<V>, size: nat, key: string)
    requires l.Valid(size) && key in l.entries
    ensures Touch(l, key).Valid(size)
  {
    WithoutKeepsDistinct(l.order, key);
    assert Touch(l, key).order[1..] == Without(l.order, key);
  }

  lemma AddWithRoom<V>(l: Lru<V>, size: nat, key: string, v: V)
    requires l.Valid(size) && key !in l.entries && |l.entries| < size
    ensures var (r, gone) := Add(l, size, key, v); r.Valid(size) && gone.None? && r.entries == l.entries[key := v]
  {
    var r := Add(l, size, key, v).0;
    DistinctSize(l.order);
    assert r.order[1..] == l.order;
  }

  lemma AddWhenFull<V>(l: Lru<V>, size: nat, key: string, v: V)
    requires l.Valid(size) && key !in l.entries && 1 <= size <= |l.entries|
    ensures var (r, gone) := Add(l, size, key, v);
      && r.Valid(size) && gone.Some?
      && r.entries == l.entries[key := v] - {gone.value.0}
      && gone.value.0 in l.entries && gone.value.1 == l.entries[gone.value.0]
  {
    var r := Add(l, size, key, v).0;
    DistinctSize(l.order);
    var n := |l.order| - 1;
    DropOldest(l.order);
    ElementsOf(l.order, l.order[n]);
    assert r.order[1..] == l.order[..n];
  }

  /** Adding keeps the cache well formed, never evicts the key just added, and loses only the oldest key. */
  lemma AddKeepsValid<V>(l: Lru<V>, size: nat, key: string, v: V)
    requires l.Valid(size) && key !in l.entries && size >= 1
    ensures var (r, gone) := Add(l, size, key, v);
      && r.Valid(size)
      && (gone.None? <==> |l.entries| < size)
      && r.entries == l.entries[key := v] - (if gone.None? then {} else {gone.value.0})
      && (gone.Some? ==> gone.value.0 in l.entries && gone.value.1 == l.entries[gone.value.0])
  {
    if |l.entries| < size {
      AddWithRoom(l, size, key, v);
    } else {
      AddWhenFull(l, size, key, v);
    }
  }
}
