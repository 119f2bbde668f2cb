/** Optional values and error results, the Dafny counterparts of Go's nil
    pointers and `(value, error)` returns. */
module Results {

  /** A value that may be absent (a Go pointer or interface that may be nil). */
  datatype Option<+T> = None | Some(value: T) {

    /** The wrapped value, or `default` when absent. */
    function GetOr(default: T): T
    {
      match this
      case Some(v) => v
      case None => default
    }
  }

  /** The outcome of a call that either succeeds with a value or fails with an
      error message (Go's `(T, error)` pair where exactly one side is used). */
  datatype Result<+T> = Ok(value: T) | Err(error: string)

  /** Go's `m[k]` on a `map[string]string`: a missing key reads as "". */
  function Lookup(m: map<string, string>, key: string): (v: string)
    ensures key !in m ==> v == ""
    ensures key in m ==> v == m[key]
  {
    if key in m then m[key] else ""
  }
}
