/** Small wrapper types shared by every module of the model. */
module Basics {

  /** A value that may be missing: Java's nullable references. */
  datatype Option<T> = None | Some(value: T)

  /** The result of an operation that may throw an exception with a message. */
  datatype Result<T> = Ok(value: T) | Err(message: string)

  /** A listing of distinct keys, standing for the iteration order of a hash map. */
  predicate Distinct<T(==)>(xs: seq<T>)
  {
    forall i, j :: 0 <= i < j < |xs| ==> xs[i] != xs[j]
  }

  /** Appending in two steps is appending the two parts at once. */
  lemma Regroup<T>(a: seq<T>, b: seq<T>, c: seq<T>)
    ensures a + b + c == a + (b + c)
  {
  }
}
