/** Optional values: JavaScript's `null` / `undefined` results become `None`. */
module Wrappers {

  datatype Option<+T> = None | Some(value: T)

  /** Dictionary lookup of a plain JavaScript object: a missing key reads as `undefined`. */
  function Lookup<K, V>(m: map<K, V>, k: K): Option<V>
  {
    if k in m then Some(m[k]) else None
  }

  /** JavaScript truthiness of a value that is either a string or `null`/`undefined`. */
  predicate Truthy(s: Option<string>)
  {
    s.Some? && s.value != ""
  }
}
