/** Small types and predicates that several models share. */
module Basics {

  datatype Option<T> = None | Some(value: T)

  type Byte = b: nat | b < 256

  predicate Distinct<T(==)>(s: seq<T>) {
    forall i, j :: 0 <= i < j < |s| ==> s[i] != s[j]
  }
}
