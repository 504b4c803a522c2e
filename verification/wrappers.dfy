/** Failure-carrying results shared by every module of the model.
    `Fault` names the exceptions the scripts raise (or the process exit they take),
    so that an error path is a value rather than a precondition. */
module Wrappers {

  /** The exceptions and exits that the modelled code can end in. */
  datatype Fault =
    | IndexError          // Python: list or array index out of range
    | ValueError          // Python: raised explicitly, or math domain error
    | ZeroDivisionError   // Python: float division by zero
    | TypeError           // Python/JS: operation on None/undefined or wrong type
    | AttributeError      // Python: attribute missing on a shapely geometry
    | NameError           // Python: variable read before it was ever bound
    | Exit(code: nat)     // Python: `exit(code)`
    | Thrown(message: string)  // JS: `throw new Error(message)` / Python: `raise Exception(message)`

  datatype Option<+T> = None | Some(value: T) {
    function GetOr(default: T): T {
      match this
      case Some(v) => v
      case None => default
    }
  }

  datatype Result<+T> = Ok(value: T) | Err(error: Fault) {
    predicate IsFailure() {
      Err?
    }

    function PropagateFailure<U>(): Result<U>
      requires Err?
    {
      Err(error)
    }

    function Extract(): T
      requires Ok?
    {
      value
    }
  }
}
