/** Option and Result values used for the orchestrator's lookups and error paths. */
module Wrappers {

  /** A dictionary lookup that may miss (Python's `dict.get` returning `None`). */
  datatype Option<T> = None | Some(value: T)

  /** The outcome of a step that may raise: a value, or the error that stops the run. */
  datatype Result<T, E> = Ok(value: T) | Err(error: E)

  /** `d.get(k)`: the value stored under `k`, or `None` when `k` is absent. */
  function Get<K, V>(d: map<K, V>, k: K): (r: Option<V>)
    ensures r.Some? <==> k in d
    ensures r.Some? ==> r.value == d[k]
  {
    if k in d then Some(d[k]) else None
  }
}
