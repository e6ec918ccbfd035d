/** The outcome of a mutating call in a language that aborts with a panic. */
module Outcomes {

  /** Why a call panicked. */
  datatype Panic =
    | IndexOutOfBounds     // `v[i]` with `i >= v.len()`
    | SliceOutOfRange      // `s[a..b]` with `b > s.len()`
    | InvalidImageData     // the explicit `panic!("invalid image data")`

  /** Either the call returned normally with the new value of `self`, or it
      panicked; `state` is `self` as the panic left it. */
  datatype Outcome<T> = Done(value: T) | Panicked(reason: Panic, state: T) {

    /** The value of `self` observable after the call, in both cases. */
    function After(): T {
      match this
      case Done(v) => v
      case Panicked(_, s) => s
    }
  }

  /** The result of a step that either produces a value or would panic. */
  datatype Result<T> = Ok(value: T) | Err(reason: Panic)
}
