/** Failure-carrying wrappers shared by every module of the model.
    A JavaScript `null`/`undefined` becomes `None`; a thrown `Error`
    becomes `Failure(message)`. */
module Common {

  datatype Option<+T> = None | Some(value: T)

  datatype Result<+T> = Success(value: T) | Failure(error: string)

  /** The outcome of a guard that either passes or throws. */
  datatype Outcome = Pass | Fail(error: string)

  /** `s` has no repeated element. */
  predicate NoDuplicates<T(==)>(s: seq<T>)
  {
    forall i, j :: 0 <= i < j < |s| ==> s[i] != s[j]
  }

  function Min(a: int, b: int): int
  {
    if a < b then a else b
  }

  /** JavaScript `s.startsWith(p)`. */
  predicate StartsWith(s: string, p: string)
  {
    |p| <= |s| && s[..|p|] == p
  }
}
