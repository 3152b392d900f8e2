/** Small definitions that several models share. */
module Wrappers {
  datatype Option<T> = None | Some(value: T)

  ghost predicate Distinct(s: seq<nat>) {
    forall i, j :: 0 <= i < j < |s| ==> s[i] != s[j]
  }
}
