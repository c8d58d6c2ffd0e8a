/** The optional-value datatype used by every parser of the model: a line
    that does not match its grammar yields None instead of raising. */
module Wrappers {

  datatype Option<+T> = None | Some(value: T) {

    /** A missing value is what `:-` passes on as a failure */
    predicate IsFailure() {
      None?
    }

    /** Carries a None over to an Option of another value type */
    function PropagateFailure<U>(): Option<U>
      requires None?
    {
      None
    }

    /** Returns the value held by Some */
    function Extract(): T
      requires Some?
    {
      value
    }
  }
}
