/** What a protocol table means: a partial map whose entries die with time, plus the `size`
field that src/map.c keeps beside it. Every table of the stack is proved to behave like this. */
module ExpiringMap {
  import opened Words

  datatype Stamped<V> = Stamped(value: V, stamp: nat)

  /** `entries` may still hold dead entries; only `Live` ones can be observed. A `timeout` of 0 means
  that entries never die. */
  datatype ExpMap<K, V> = ExpMap(entries: map<K, Stamped<V>>, size: int, max: nat, timeout: nat)

  function Empty<K, V>(max: nat, timeout: nat): ExpMap<K, V>
  {
    ExpMap(map[], 0, max, timeout)
  }

  predicate Fresh(stamp: nat, timeout: nat, now: nat)
  {
    stamp != 0 && (timeout == 0 || stamp + timeout >= now)
  }

  predicate Live<K, V>(m: ExpMap<K, V>, k: K, now: nat)
  {
    k in m.entries && Fresh(m.entries[k].stamp, m.timeout, now)
  }

  function Lookup<K, V>(m: ExpMap<K, V>, k: K, now: nat): Option<V>
  {
    if Live(m, k, now) then Some(m.entries[k].value) else None
  }

  /** When `map_set` succeeds: an update always does, a new key needs `size` below `max`. */
  predicate Accepts<K, V>(m: ExpMap<K, V>, k: K, now: nat)
  {
    Live(m, k, now) || m.size != m.max
  }

  function Put<K, V>(m: ExpMap<K, V>, k: K, v: V, now: nat): ExpMap<K, V>
  {
    if !Accepts(m, k, now) then m
    else m.(entries := m.entries[k := Stamped(v, now)], size := if Live(m, k, now) then m.size else m.size + 1)
  }

  function Remove<K, V>(m: ExpMap<K, V>, k: K, now: nat): ExpMap<K, V>
  {
    if Live(m, k, now) then m.(entries := m.entries - {k}, size := m.size - 1) else m
  }

  /** Writing through the pointer that `map_get` returned: the time stamp stays. */
  function Poke<K, V>(m: ExpMap<K, V>, k: K, v: V): ExpMap<K, V>
  {
    if k in m.entries then m.(entries := m.entries[k := m.entries[k].(value := v)]) else m
  }

  // ---------- what can be found afterwards

  /** An entry set at `now` is found with its new value for as long as the timeout, counted from `now`, and no
  longer, whenever the key was set before; nothing else changes. */
  lemma FoundAfterPut<K, V>(m: ExpMap<K, V>, k: K, v: V, now: nat, j: K, later: nat)
    requires now > 0
    ensures Lookup(Put(m, k, v, now), j, later) ==
      if j == k && (Live(m, k, now) || m.size != m.max) then
        if m.timeout == 0 || later <= now + m.timeout then Some(v) else None
      else Lookup(m, j, later)
    ensures Put(m, k, v, now).size == m.size + if !Live(m, k, now) && m.size != m.max then 1 else 0
  {
  }

  lemma FoundAfterRemove<K, V>(m: ExpMap<K, V>, k: K, now: nat, j: K, later: nat)
    requires now <= later
    ensures Lookup(Remove(m, k, now), j, later) == if j == k then None else Lookup(m, j, later)
    ensures Remove(m, k, now).size == m.size - if Live(m, k, now) then 1 else 0
  {
  }

  /** A write through a pointer does not renew the entry. */
  lemma FoundAfterPoke<K, V>(m: ExpMap<K, V>, k: K, v: V, j: K, later: nat)
    ensures Lookup(Poke(m, k, v), j, later)
         == if j == k && Lookup(m, k, later).Some? then Some(v) else Lookup(m, j, later)
  {
  }
}
