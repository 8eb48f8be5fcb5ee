/** Failure-carrying datatypes shared by the whole project. */
module Wrappers {
  datatype Option<+T> = None | Some(value: T)

  /** The value stored under `key`, or `None`: what reading an optional file or an optional record yields. */
  function Get<K, V>(m: map<K, V>, key: K): Option<V> {
    if key in m then Some(m[key]) else None
  }
}
