/** Facts about maps that grow entry by entry. */
module Collections {
  lemma MergeUpdate<K, V>(base: map<K, V>, m: map<K, V>, k: K, v: V)
    ensures base + m[k := v] == (base + m)[k := v]
  {
  }

  lemma MergeEntry<K, V>(acc: map<K, V>, k: K, v: V, m: map<K, V>)
    ensures acc + (map[k := v] + m) == acc[k := v] + m
  {
  }

  lemma UpdateTwice<K, V>(m: map<K, V>, k: K, a: V, b: V)
    ensures m[k := a][k := b] == m[k := b]
  {
  }

  /** A map `m` with the entries of `ps` but for the names `left`, and one more of them. */
  lemma MapNext<K, V>(m: map<K, V>, ps: map<K, V>, left: set<K>, k: K)
    requires m.Keys == ps.Keys - left && k in left && left <= ps.Keys
    requires forall n | n in m :: m[n] == ps[n]
    ensures m[k := ps[k]].Keys == ps.Keys - (left - {k})
    ensures forall n | n in m[k := ps[k]] :: m[k := ps[k]][n] == ps[n]
  {
  }
}
