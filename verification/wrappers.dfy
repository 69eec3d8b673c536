/** Optional values, gateway outcomes and partial-record keys, shared by the
    whole model. */
module Wrappers {

  /** A value that may be missing: `null`, `undefined` or NaN in the program. */
  datatype Option<+T> = None | Some(value: T)

  /** The outcome of a gateway call that may throw. */
  datatype Result<+T, +E> = Success(value: T) | Failure(error: E)

  /** One key of a partial record (`Partial<T>` in the program): either the
      key is absent, or it is present with a value. Object spread copies
      exactly the present keys. */
  datatype Field<+T> = Absent | Given(value: T) {

    /** Spread semantics: a present key overrides `fallback`. */
    function Or(fallback: T): T {
      match this
      case Given(v) => v
      case Absent => fallback
    }
  }
}
