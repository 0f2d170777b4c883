/**
 * Small shared pieces: the optional value used for JavaScript's
 * `undefined`-or-value results, and sequence associativity.
 */
module Wrappers {
  datatype Option<+T> = None | Some(value: T)

  /** Concatenation is associative; proved once here, outside larger proof contexts. */
  lemma ConcatAssoc<T>(x: seq<T>, y: seq<T>, z: seq<T>)
    ensures x + y + z == x + (y + z)
  {
  }
}
