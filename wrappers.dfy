/** Error-carrying results shared by the model: Python's `None` and the
    exceptions the modelled code can raise. */
module Wrappers {

  datatype Option<T> = None | Some(value: T)

  /** The Python exceptions a modelled operation can end with. */
  datatype Error =
    | AssertionError     // a failed `assert`
    | ValueError         // an Enum constructed from a value it does not have
    | ZeroDivisionError  // a division by `len(persons)` when there are none

  datatype Result<T> = Ok(value: T) | Err(error: Error)
}
