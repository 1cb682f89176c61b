/** The optional value used throughout the model: a nullable column, a missing key, a failed call. */
module Options {
  datatype Option<+T> = None | Some(value: T)

  function Lookup<K, V>(m: map<K, V>, key: K): Option<V> {
    if key in m then Some(m[key]) else None
  }
}
