/** Map facts stated once, so that proofs about stores updated in place
    need not rediscover them by extensionality. */
module Maps {

  /** Writing a key's own value back leaves the map as it is. */
  lemma {:induction false} UpdateSame<K, V>(m: map<K, V>, k: K)
    requires k in m
    ensures m[k := m[k]] == m
  {
  }

  /** A second write to a key overrides the first. */
  lemma {:induction false} UpdateTwice<K, V>(m: map<K, V>, k: K, a: V, b: V)
    ensures m[k := a][k := b] == m[k := b]
  {
  }
}
