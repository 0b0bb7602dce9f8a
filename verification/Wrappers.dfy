/** Result types shared by the other modules. */
module Wrappers {
  datatype Option<+T> = None | Some(value: T) {
    predicate IsFailure() {
      None?
    }

    function PropagateFailure<U>(): Option<U>
      requires None?
    {
      None
    }

    function Extract(): T
      requires Some?
    {
      value
    }
  }

  /** The outcome of a check, to be used before `:-` in a function that returns an option. */
  datatype Check = Passed | Refused {
    predicate IsFailure() {
      Refused?
    }

    function PropagateFailure<U>(): Option<U>
      requires Refused?
    {
      None
    }
  }

  function Need(holds: bool): Check {
    if holds then Passed else Refused
  }

  datatype Result<+T, +E> = Ok(value: T) | Err(error: E)
}
