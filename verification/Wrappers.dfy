/** What all modules share: row ids and the Option type (usable with `:-`). */
module Wrappers {

  /** Ids are random tokens stored as text. */
  type Id = string

  datatype Option<+T> = None | Some(value: T) {
    predicate IsFailure() {
      None?
    }

    function PropagateFailure<U>(): Option<U>
      requires None?
    {
      None
    }

    function Extract(): T
      requires Some?
    {
      value
    }
  }
}
