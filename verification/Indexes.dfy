/** Look-up tables built from lists, one key per item. */
module Indexes {
  import opened Wrappers

  /** The items by key; of several with one key the last wins. */
  function IndexBy<K(==), V>(items: seq<V>, key: V -> K): map<K, V> {
    if items == [] then map[]
    else IndexBy(items[..|items| - 1], key)[key(items[|items| - 1]) := items[|items| - 1]]
  }

  ghost predicate DistinctKeys<K, V>(items: seq<V>, key: V -> K) {
    forall i, j | 0 <= i < j < |items| :: key(items[i]) != key(items[j])
  }

  lemma {:induction false} IndexHolds<K, V>(items: seq<V>, key: V -> K, k: K)
    ensures k in IndexBy(items, key) <==> exists i :: 0 <= i < |items| && key(items[i]) == k
    ensures k in IndexBy(items, key) ==> IndexBy(items, key)[k] in items && key(IndexBy(items, key)[k]) == k
  {
    if items != [] {
      var init, last := items[..|items| - 1], items[|items| - 1];
      IndexHolds(init, key, k);
      if k in IndexBy(init, key) {
        var i :| 0 <= i < |init| && key(init[i]) == k;
        assert items[i] == init[i];
      } else if key(last) == k {
        assert key(items[|items| - 1]) == k;
      } else {
        forall i | 0 <= i < |items|
          ensures key(items[i]) != k
        {
          if i < |init| { assert items[i] == init[i]; }
        }
      }
    }
  }

  /** With distinct keys the index gives back every item. */
  lemma IndexGives<K, V>(items: seq<V>, key: V -> K, i: nat)
    requires DistinctKeys(items, key) && i < |items|
    ensures key(items[i]) in IndexBy(items, key) && IndexBy(items, key)[key(items[i])] == items[i]
  {
    IndexHolds(items, key, key(items[i]));
    var v := IndexBy(items, key)[key(items[i])];
    var j :| 0 <= j < |items| && items[j] == v;
  }

  /** With distinct keys the index has one key per item. */
  lemma {:induction false} IndexSize<K, V>(items: seq<V>, key: V -> K)
    requires DistinctKeys(items, key)
    ensures |IndexBy(items, key).Keys| == |items|
  {
    if items != [] {
      var init, last := items[..|items| - 1], items[|items| - 1];
      assert forall i | 0 <= i < |init| :: init[i] == items[i];
      IndexSize(init, key);
      IndexHolds(init, key, key(last));
      forall i | 0 <= i < |init|
        ensures key(init[i]) != key(last)
      {
        assert key(items[i]) != key(items[|items| - 1]);
      }
      assert IndexBy(items, key).Keys == IndexBy(init, key).Keys + {key(last)};
    }
  }

  /** Builds an index in a loop; a repeated key is an error. */
  method BuildIndex<K(==), V>(items: seq<V>, key: V -> K) returns (r: Option<map<K, V>>)
    ensures r.Some? <==> DistinctKeys(items, key)
    ensures r.Some? ==> r.value == IndexBy(items, key)
  {
    var index: map<K, V> := map[];
    for n := 0 to |items|
      invariant index == IndexBy(items[..n], key)
      invariant DistinctKeys(items[..n], key)
    {
      IndexHolds(items[..n], key, key(items[n]));
      assert items[..n + 1][..n] == items[..n];
      if key(items[n]) in index {
        var i :| 0 <= i < n && key(items[..n][i]) == key(items[n]);
        assert items[..n][i] == items[i];
        return None;
      }
      forall i | 0 <= i < n
        ensures key(items[i]) != key(items[n])
      {
        assert items[..n][i] == items[i];
      }
      index := index[key(items[n]) := items[n]];
    }
    assert items[..|items|] == items;
    return Some(index);
  }
}
