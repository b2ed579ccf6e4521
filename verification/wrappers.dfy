/** Failure-carrying datatypes shared by the widget models.
- Option<T>: a value that may be missing (a JavaScript `null`, a failed read).
- Result<T>: a value or an error message (a thrown string that ends the run).
- Step<S>: a state that either carries on or halts the run with a message;
  the scripts stop deliberately by throwing even after a successful action,
  and the state reached before the throw still matters.
 */
module Wrappers {

  datatype Option<+T> = None | Some(value: T) {

    /** The carried value, or `default` when there is none. */
    function GetOr(default: T): T {
      match this
      case Some(v) => v
      case None => default
    }
  }

  datatype Result<+T> = Ok(value: T) | Err(message: string)

  datatype Step<+S> = Proceed(state: S) | Halt(state: S, message: string)
}
