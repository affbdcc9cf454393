/** Result types shared by every module. */
module Common {

  datatype Option<+T> = None | Some(value: T)

  datatype Result<+T> = Success(value: T) | Failure

  /** What a Go map lookup with the comma-ok form returns. */
  function Lookup<K, V>(m: map<K, V>, k: K): Option<V> {
    if k in m then Some(m[k]) else None
  }

  function OptionSeq<T>(v: Option<T>): seq<T> {
    match v
    case None => []
    case Some(x) => [x]
  }
}
