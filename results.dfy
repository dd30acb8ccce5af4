/**
 * Option and result types standing for the source's `null` values and thrown
 * exceptions, and the one property of sequences the other modules share.
 */
module Results {

  /** A value that may be absent (`null` in the source). */
  datatype Option<T> = None | Some(value: T)

  /** A computed value, or the error that the source would have thrown. */
  datatype Result<T, E> = Success(value: T) | Failure(error: E)

  /** The outcome of an operation that returns nothing but may throw. */
  datatype Outcome<E> = Pass | Fail(error: E)

  /** No element occurs twice. */
  predicate Distinct<T(==)>(s: seq<T>)
  {
    forall i, j :: 0 <= i < j < |s| ==> s[i] != s[j]
  }
}
