/** Small shared vocabulary: an optional value, used for JavaScript's
    `null`/`undefined` and for "not found", the two copy-on-write map
    updates the client's state updaters perform, and two facts about map
    updates stated once for every key and value type. */
module Basics {
  datatype Option<+T> = None | Some(value: T)

  /** Writing a key's own value back leaves the map as it was. */
  lemma UpdateSelf<K, V>(m: map<K, V>, k: K)
    requires k in m
    ensures m[k := m[k]] == m
  {
  }

  /** The second of two writes to one key is the one that stays. */
  lemma UpdateTwice<K, V>(m: map<K, V>, k: K, a: V, b: V)
    ensures m[k := a][k := b] == m[k := b]
  {
  }

  /** `{ ...m, [k]: v }`: a copy of `m` in which `k` holds `v`. */
  function MapPut<K, V>(m: map<K, V>, k: K, v: V): (r: map<K, V>)
    ensures r.Keys == m.Keys + {k} && r[k] == v
    ensures forall j :: j in m && j != k ==> r[j] == m[j]
  {
    m[k := v]
  }

  /** A copy of `m` with `k` deleted from it. */
  function MapDelete<K, V>(m: map<K, V>, k: K): (r: map<K, V>)
    ensures r.Keys == m.Keys - {k}
    ensures forall j :: j in r ==> r[j] == m[j]
  {
    m - {k}
  }
}
