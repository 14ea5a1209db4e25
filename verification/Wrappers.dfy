/** Shared result types, and a fact about sets that several modules need. */
module Wrappers {

  datatype Option<+T> = None | Some(value: T)

  /** What a call returns where the source either returns a value or raises. */
  datatype Result<+T, +E> = Ok(value: T) | Err(error: E)

  /** What a row writer answers: it may confirm, refuse, or say nothing, which counts as success. */
  datatype Reply = Confirmed | Refused | Silent

  lemma SubsetSize<T>(a: set<T>, b: set<T>)
    requires a <= b
    ensures |a| <= |b|
  {
    assert b == a + (b - a);
    assert |b| == |a| + |b - a|;
  }
}
