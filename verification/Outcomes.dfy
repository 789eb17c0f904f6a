/** Optional values and the error results the stores return. */
module Outcomes {
  datatype Option<+T> = None | Some(value: T)

  /** The error values of the stores, plus one for a violated uniqueness constraint. */
  datatype Error =
    | Invalid
    | NotFound
    | Conflict
    | StateConflict
    | Gap
    | Exhausted
    | Constraint

  datatype Result<+T> = Ok(value: T) | Err(error: Error)
}
