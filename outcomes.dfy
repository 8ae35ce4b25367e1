/** Option and result wrappers shared by the whole model. */
module Outcomes {

  /** A value that may be missing (Python's None). */
  datatype Option<+T> = None | Some(value: T)

  /** The outcome of a step that either finishes normally or raises an exception
      that the source does not catch at that level. */
  datatype Result<+T, +E> = Ok(value: T) | Err(error: E)

  /** How a call of the source ended: it returned a value, or it raised an
      exception that propagates to its caller. */
  datatype Completion<+T> = Returned(value: T) | Threw
}
