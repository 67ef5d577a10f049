/** Option, used for JavaScript values that may be null or undefined and for
    parsers that may fail. It is failure-compatible, so `:-` can be used. */
module Wrappers {

  datatype Option<+T> = None | Some(value: T) {

    predicate IsFailure() {
      None?
    }

    function PropagateFailure<U>(): Option<U>
      requires None?
    {
      None
    }

    function Extract(): T
      requires Some?
    {
      value
    }
  }
}
