/** Optional values: Go's nil pointers and nil interface values. */
module Wrappers {

  datatype Option<+T> = None | Some(value: T)

  /** Order-preserving sub-sequence: `a` is `b` with some elements dropped. */
  ghost predicate IsSubsequence<T>(a: seq<T>, b: seq<T>)
    decreases |b|
  {
    if a == [] then true
    else if b == [] then false
    else
      || (a[|a| - 1] == b[|b| - 1] && IsSubsequence(a[..|a| - 1], b[..|b| - 1]))
      || IsSubsequence(a, b[..|b| - 1])
  }
}
