/** Python's insertion-ordered `dict`, as a sequence of items in insertion order.
    Assigning to a present key replaces its value where it stands; a new key goes last. */
module OrderedDict {
  import opened Wrappers

  datatype Item<K, V> = Item(key: K, value: V)

  /** Python dicts never hold a key twice. */
  predicate UniqueKeys<K(==), V>(d: seq<Item<K, V>>) {
    forall i, j | 0 <= i < j < |d| :: d[i].key != d[j].key
  }

  /** `d.get(k)` */
  function Get<K(==), V>(d: seq<Item<K, V>>, k: K): (r: Option<V>)
    ensures r.None? <==> forall i | 0 <= i < |d| :: d[i].key != k
  {
    if d == [] then None
    else if d[0].key == k then Some(d[0].value)
    else
      assert forall i | 1 <= i < |d| :: d[i] == d[1..][i - 1];
      Get(d[1..], k)
  }

  /** `d[k] = v` */
  function Set<K(==), V>(d: seq<Item<K, V>>, k: K, v: V): seq<Item<K, V>> {
    if d == [] then [Item(k, v)]
    else if d[0].key == k then [Item(k, v)] + d[1..]
    else [d[0]] + Set(d[1..], k, v)
  }

  /** Each key of a dict looks up the value stored with it. */
  lemma {:induction false} GetAt<K, V>(d: seq<Item<K, V>>, i: nat)
    requires UniqueKeys(d) && i < |d|
    ensures Get(d, d[i].key) == Some(d[i].value)
  {
    if i > 0 {
      assert d[1..][i - 1] == d[i];
      GetAt(d[1..], i - 1);
    }
  }

  /** Assigning to a new key appends the item. */
  lemma {:induction false} SetAbsent<K, V>(d: seq<Item<K, V>>, k: K, v: V)
    requires forall i | 0 <= i < |d| :: d[i].key != k
    ensures Set(d, k, v) == d + [Item(k, v)]
  {
    if d != [] {
      assert d[0].key != k;
      assert forall i | 0 <= i < |d[1..]| :: d[1..][i] == d[i + 1];
      SetAbsent(d[1..], k, v);
      assert d == [d[0]] + d[1..];
    }
  }

  /** Assigning to a present key replaces the value in place. */
  lemma {:induction false} SetPresent<K, V>(d: seq<Item<K, V>>, i: nat, v: V)
    requires UniqueKeys(d) && i < |d|
    ensures Set(d, d[i].key, v) == d[i := Item(d[i].key, v)]
  {
    if i > 0 {
      assert d[0].key != d[i].key;
      assert d[1..][i - 1] == d[i];
      SetPresent(d[1..], i - 1, v);
      assert d[i := Item(d[i].key, v)] == [d[0]] + d[1..][i - 1 := Item(d[i].key, v)];
    }
  }
}
