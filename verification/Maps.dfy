/** Map access with defaults, as the `entry` calls of the source have it. */
module Maps {
  import opened Wrappers

  function Get<K, V>(m: map<K, seq<V>>, k: K): seq<V>
  {
    if k in m then m[k] else []
  }

  function Find<K, V>(m: map<K, V>, k: K): Option<V>
  {
    if k in m then Some(m[k]) else None
  }

  /** `entry(k).or_default().append(vs)`. */
  function Push<K, V>(m: map<K, seq<V>>, k: K, vs: seq<V>): map<K, seq<V>>
  {
    m[k := Get(m, k) + vs]
  }

  function Inner<N, K, V>(m: map<N, map<K, V>>, n: N): map<K, V>
  {
    if n in m then m[n] else map[]
  }

  /** `entry(n).or_default().entry(k).or_default().append(vs)`. */
  function Push2<N, K, V>(m: map<N, map<K, seq<V>>>, n: N, k: K, vs: seq<V>): map<N, map<K, seq<V>>>
  {
    m[n := Push(Inner(m, n), k, vs)]
  }
}
