/**
 * A map whose entries carry an expiry, swept now and then to bound memory: the
 * shape of both in-process second-factor guards. An entry is alive strictly
 * before its expiry. Keys are what the guards are keyed by, times nanoseconds.
 */
module ExpiringMap {

  datatype Entry<+V> = Entry(value: V, expiresAt: int)

  /** The entries a sweep at `now` leaves. */
  function Live<K, V>(m: map<K, Entry<V>>, now: int): map<K, Entry<V>> {
    map k | k in m && now < m[k].expiresAt :: m[k]
  }

  /** Delete every expired entry, one key at a time. */
  method Sweep<K(==), V>(m: map<K, Entry<V>>, now: int) returns (r: map<K, Entry<V>>)
    ensures r == Live(m, now)
  {
    r := m;
    var left := m.Keys;
    while left != {}
      invariant left <= m.Keys
      invariant forall k <- left :: k in r
      invariant forall k <- r :: k in m && r[k] == m[k]
      invariant forall k <- m :: k !in left ==> (k in r <==> now < m[k].expiresAt)
      decreases left
    {
      var k :| k in left;
      if !(now < m[k].expiresAt) {
        r := r - {k};
      }
      left := left - {k};
    }
  }

  /** Two maps that cannot be told apart from `now` on. */
  ghost predicate Agree<K(!new), V(!new)>(m: map<K, Entry<V>>, ref: map<K, Entry<V>>, now: int) {
    Live(m, now) == Live(ref, now)
  }

  lemma AgreeAt<K(!new), V(!new)>(m: map<K, Entry<V>>, ref: map<K, Entry<V>>, now: int, k: K)
    requires Agree(m, ref, now)
    ensures (k in m && now < m[k].expiresAt) <==> (k in ref && now < ref[k].expiresAt)
    ensures k in m && now < m[k].expiresAt ==> m[k] == ref[k]
  {
    assert k in Live(m, now) <==> k in Live(ref, now);
    if k in Live(m, now) {
      assert Live(m, now)[k] == Live(ref, now)[k];
    }
  }

  lemma AgreeLater<K(!new), V(!new)>(m: map<K, Entry<V>>, ref: map<K, Entry<V>>, now: int, later: int)
    requires Agree(m, ref, now) && now <= later
    ensures Agree(m, ref, later) && Agree(Live(m, later), ref, later)
  {
    forall k | k in m || k in ref
      ensures (k in m && later < m[k].expiresAt) <==> (k in ref && later < ref[k].expiresAt)
      ensures k in m && later < m[k].expiresAt ==> m[k] == ref[k]
    {
      AgreeAt(m, ref, now, k);
    }
    assert Live(m, later) == Live(ref, later);
    assert Live(Live(m, later), later) == Live(m, later);
  }

  lemma AgreeStore<K(!new), V(!new)>(m: map<K, Entry<V>>, ref: map<K, Entry<V>>, now: int, k: K, e: Entry<V>)
    requires Agree(m, ref, now)
    ensures Agree(m[k := e], ref[k := e], now)
  {
    forall j | j in m || j in ref
      ensures (j in m && now < m[j].expiresAt) <==> (j in ref && now < ref[j].expiresAt)
      ensures j in m && now < m[j].expiresAt ==> m[j] == ref[j]
    {
      AgreeAt(m, ref, now, j);
    }
    assert Live(m[k := e], now) == Live(ref[k := e], now);
  }
}
