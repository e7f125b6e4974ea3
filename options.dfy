/** The optional value used wherever the source reads a field that may be absent
    (`dict.get`, a `locked_until` of `None`, a failed decryption). */
module Options {

  datatype Option<T> = None | Some(value: T)

  /** `d.get(k, default)` on a map. */
  function GetOr<K, V>(m: map<K, V>, k: K, default: V): V
  {
    if k in m then m[k] else default
  }
}
