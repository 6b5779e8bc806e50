/** Result types shared by the models: a value that may be absent, and a
    computation that may raise. */
module Wrappers {

  datatype Option<+T> = None | Some(value: T)
  {
    function GetOr(default: T): T {
      match this
      case Some(v) => v
      case None => default
    }
  }

  /** What a Python function hands back: a value, or an exception.  Which
      exception class is raised never changes the control flow modelled here. */
  datatype Result<+T> = Ok(value: T) | Raised
  {
    predicate IsFailure() {
      Raised?
    }

    function PropagateFailure<U>(): Result<U>
      requires Raised?
    {
      Raised
    }

    function Extract(): T
      requires Ok?
    {
      value
    }
  }
}
