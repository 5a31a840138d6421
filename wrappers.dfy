/** Option and Result, used for dictionary keys that may be absent and for the
    exceptions the modelled Python code raises. */
module Wrappers {

  datatype Option<+T> = None | Some(value: T) {
    /** `d.get(key, default)` on an optional field. */
    function GetOr(default: T): T {
      match this
      case Some(v) => v
      case None => default
    }
  }

  datatype Result<+R, +E> = Success(value: R) | Failure(error: E)

  /** The Python exceptions the modelled code can raise. */
  datatype PyError =
    | KeyError      // a dictionary key that is not present
    | IndexError    // `[0]` or `[-1]` of an empty list
    | ValueError    // raised explicitly by the optimiser
    | Exception(message: string)  // a plain `raise Exception(...)`
}
