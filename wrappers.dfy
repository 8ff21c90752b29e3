/** Optional values: a missing value, or an operation that threw. */
module Wrappers {

  datatype Option<+T> = None | Some(value: T)

  /** A non-empty sequence is its prefix followed by its last element. */
  lemma LastSplit<T>(s: seq<T>)
    requires s != []
    ensures s[..|s| - 1] + [s[|s| - 1]] == s
  {
  }

  /** The empty sequence is a unit of concatenation. */
  lemma AppendEmpty<T>(s: seq<T>)
    ensures s + [] == s && [] + s == s
  {
  }
}
