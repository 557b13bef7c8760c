/** Shared building blocks: optional values (JavaScript `undefined`, Python `None`) and duplicate-free lists. */
module Wrappers {

  datatype Option<+T> = None | Some(value: T)

  /** No entry listed twice. */
  predicate Distinct<T(==)>(s: seq<T>)
  {
    forall i, j :: 0 <= i < j < |s| ==> s[i] != s[j]
  }
}
