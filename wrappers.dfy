/** Failure-compatible wrapper shared by the other modules. A Python call that
    raises (an IndexError, a KeyError, a TypeError on None) is modelled as None. */
module Wrappers {

  datatype Option<+T> = None | Some(value: T) {

    predicate IsFailure() {
      None?
    }

    function PropagateFailure<U>(): Option<U>
      requires None?
    {
      None
    }

    function Extract(): T
      requires Some?
    {
      value
    }
  }
}
