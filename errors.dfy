/** Error kinds of the pipeline engine and the two result wrappers used throughout.
    The engine reports formatted error messages; the model keeps only their kind. */
module Errors {

  /** Why a resolution, and therefore a whole run, failed. */
  datatype ErrorKind =
    | NotFound          // no stored value of the requested type
    | InvalidIndex      // a negative index was requested from the value store
    | IndexOutOfRange   // an explicit binding points outside its sequence
    | TypeMismatch      // the bound value is not assignable to the parameter type
    | MissingArgument   // the Fail policy met a parameter needing default resolution
    | UnknownProducer   // a FunctionOutput binding names a step with no recorded outputs
    | UnknownPolicy     // the missing-argument policy is not a known value

  datatype Result<+T> = Ok(value: T) | Err(error: ErrorKind)

  datatype Option<+T> = None | Some(value: T)
}
