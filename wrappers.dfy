/** Optional values: PHP's `null` where a value may be missing. */
module Wrappers {

  datatype Option<+T> = None | Some(value: T)

  /** The entry of `m` under `k`, or None when `k` is not a key. */
  function Lookup<K, V>(m: map<K, V>, k: K): (r: Option<V>)
    ensures r.Some? <==> k in m
    ensures r.Some? ==> r.value == m[k]
  {
    if k in m then Some(m[k]) else None
  }
}
