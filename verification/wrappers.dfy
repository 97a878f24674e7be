/** Failure-carrying datatypes shared by the model: an optional value, a
    value-or-error, and a pass-or-error status. */
module Wrappers {

  /** A value that may be absent; `dict.get(k, None)` in the source. */
  datatype Option<+T> = None | Some(value: T)

  /** A computed value, or the error that was raised instead. */
  datatype Result<+R, +E> = Success(value: R) | Failure(error: E)

  /** Completion status of an operation that returns nothing: it either ran
      to the end or raised an error. */
  datatype Outcome<+E> = Pass | Fail(error: E)

  /** Looks a key up in a map, `None` when it is missing. */
  function Get<K, V>(m: map<K, V>, k: K): (r: Option<V>)
    ensures r.Some? <==> k in m
    ensures r.Some? ==> r.value == m[k]
  {
    if k in m then Some(m[k]) else None
  }
}
