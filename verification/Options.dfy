/** A failure-compatible option type: `None` stands for an exit of the compiler, a stuck
    machine, or a source run with no defined result, as each use says. */
module Options {

  datatype Option<+T> = None | Some(value: T) {

    predicate IsFailure() {
      None?
    }

    function PropagateFailure<U>(): Option<U>
      requires None?
    {
      None
    }

    function Extract(): T
      requires Some?
    {
      value
    }
  }
}
