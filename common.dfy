/** Values shared by every module: optional values and the Python
    exceptions that the modelled code can raise. */
module Common {

  datatype Option<+T> = None | Some(value: T)

  /** The Python exceptions that can escape from the modelled functions. */
  datatype PyError =
    | KeyError(key: string)              // a dictionary lookup of a missing key
    | NameError(name: string)            // a call of a name that is not defined
    | OSError(path: string)              // os.unlink of a path it cannot remove
    | CalledProcessError(message: string) // an external tool that failed

  /** The result of a Python call: a returned value or a raised exception. */
  datatype Result<+T> = Ok(value: T) | Raised(error: PyError) {
    predicate IsFailure() {
      Raised?
    }

    function PropagateFailure<U>(): Result<U>
      requires Raised?
    {
      Raised(error)
    }

    function Extract(): T
      requires Ok?
    {
      value
    }
  }

  function Min(a: nat, b: nat): nat {
    if a <= b then a else b
  }
}
