/** Failure-compatible wrappers used for the Python exceptions and None results. */
module Wrappers {

  datatype Option<T> = None | Some(value: T)

  /** The Python exceptions the modelled code can raise. */
  datatype Error =
    | InvalidType  // the Exception that enforceType raises for a value of the wrong exact type
    | IndexError   // indexing past the end of a list
    | ValueError   // list.remove of an element that is not there
    | BindingError // sqlite3's ProgrammingError: placeholders and bound values differ in number
    | AttributeError // an attribute looked up on None

  datatype Result<T> = Ok(value: T) | Err(error: Error) {

    predicate IsFailure() {
      Err?
    }

    function PropagateFailure<U>(): Result<U>
      requires Err?
    {
      Err(error)
    }

    function Extract(): T
      requires Ok?
    {
      value
    }
  }
}
