/** Small helper types shared by the other modules. */
module Wrappers {

  /** The value of a computation that may produce nothing (Python's `None`). */
  datatype Option<+T> = None | Some(value: T)

  /** No element of `s` occurs twice. */
  predicate Distinct<T(==)>(s: seq<T>)
  {
    forall i, j :: 0 <= i < j < |s| ==> s[i] != s[j]
  }
}
