/** What all parts of this project use. */
module Basics {
  datatype Option<+T> = None | Some(value: T)

  /** An address. Address 0 is the null pointer and never holds an object. */
  type Ptr = nat

  const NULL: Ptr := 0

  predicate NoDuplicates<T(==)>(s: seq<T>) {
    forall i, j | 0 <= i < j < |s| :: s[i] != s[j]
  }
}
