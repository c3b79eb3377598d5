module Wrappers {

  /** A result that may be missing, as the NULL and error returns of the code. */
  datatype Option<+T> = None | Some(value: T)

  /** Concatenation, regrouped; the verifier does not look for this by itself. */
  lemma Regroup<T>(a: seq<T>, b: seq<T>, c: seq<T>)
    ensures a + b + c == a + (b + c)
  {
  }
}
