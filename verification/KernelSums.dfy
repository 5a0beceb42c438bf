/** Sums over the storage maps of the kernel: map values, and measures of the request queue. */
module KernelSums {

  function Get<K(==)>(m: map<K, int>, k: K): int {
    if k in m then m[k] else 0
  }

  ghost function SumOver<K(!new)>(keys: set<K>, m: map<K, int>): int {
    if keys == {} then 0
    else
      var k :| k in keys;
      Get(m, k) + SumOver(keys - {k}, m)
  }

  ghost function SumValues<K(!new)>(m: map<K, int>): int {
    SumOver(m.Keys, m)
  }

  lemma {:induction false} SumOverRemove<K(!new)>(keys: set<K>, m: map<K, int>, k: K)
    requires k in keys
    ensures SumOver(keys, m) == Get(m, k) + SumOver(keys - {k}, m)
  {
    var j :| j in keys && SumOver(keys, m) == Get(m, j) + SumOver(keys - {j}, m);
    if j != k {
      SumOverRemove(keys - {j}, m, k);
      SumOverRemove(keys - {k}, m, j);
      assert keys - {j} - {k} == keys - {k} - {j};
    }
  }

  lemma {:induction false} SumOverAgree<K(!new)>(keys: set<K>, m: map<K, int>, m': map<K, int>)
    requires forall k :: k in keys ==> Get(m, k) == Get(m', k)
    ensures SumOver(keys, m) == SumOver(keys, m')
  {
    if keys != {} {
      var k :| k in keys;
      SumOverRemove(keys, m, k);
      SumOverRemove(keys, m', k);
      SumOverAgree(keys - {k}, m, m');
    }
  }

  lemma SumPut<K(!new)>(m: map<K, int>, k: K, v: int)
    ensures SumValues(m[k := v]) == SumValues(m) - Get(m, k) + v
  {
    var rest := m.Keys - {k};
    SumOverRemove(m[k := v].Keys, m[k := v], k);
    assert m[k := v].Keys - {k} == rest;
    SumOverAgree(rest, m, m[k := v]);
    if k in m {
      SumOverRemove(m.Keys, m, k);
    } else {
      assert rest == m.Keys;
    }
  }

  lemma {:induction false} SumNonNegative<K(!new)>(keys: set<K>, m: map<K, int>)
    requires forall k :: k in keys ==> Get(m, k) >= 0
    ensures SumOver(keys, m) >= 0
  {
    if keys != {} {
      var k :| k in keys;
      SumOverRemove(keys, m, k);
      SumNonNegative(keys - {k}, m);
    }
  }
}
