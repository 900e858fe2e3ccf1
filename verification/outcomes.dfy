/** Optional values and the outcome of a call that may raise an exception. */
module Outcomes {

  /** A value that may be absent: C#'s `null` or `bool?`. */
  datatype Option<+T> = None | Some(value: T)

  /**
    The outcome of a call that may raise: either it returned a value or it
    raised. Where the failure comes from a boundary the model does not look
    inside (the database, the network), which case happens is an input.
   */
  datatype Call<+T> = Returned(value: T) | Threw
}
