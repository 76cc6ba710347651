/** The Python exceptions the core raises, and the result and option types that carry them. */
module Failures {

  /** The `errno` of an `IOError`/`OSError` raised by a file-system call. */
  datatype Errno = ENOENT | EACCES | ELOOP

  /** An exception that leaves an actor. */
  datatype Failure =
    | OsError(errno: Errno)
    | NameError(name: string)           // a name used where it is not defined
    | KeyError(key: string)             // a dictionary lookup of a missing key
    | UnboundLocalError(name: string)   // a local variable read before any assignment

  datatype Option<+T> = None | Some(value: T)

  /** A value, or the exception raised instead of it. */
  datatype Result<+T> = Ok(value: T) | Err(failure: Failure) {
    predicate IsFailure() {
      Err?
    }

    function PropagateFailure<U>(): Result<U>
      requires Err?
    {
      Err(failure)
    }

    function Extract(): T
      requires Ok?
    {
      value
    }
  }
}
