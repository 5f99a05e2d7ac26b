/** Failure-compatible result type used in place of the source's `System.exit`
    calls and uncaught array-index exceptions. */
module Results {

  /** The two ways an access to main memory can fail.
      `AddressOutOfRange` is the explicit range check (the source prints a
      message and exits); `IndexOutOfBounds` is an address that passes that
      check but still indexes past the end of a backing array. */
  datatype Fault = AddressOutOfRange(addr: int) | IndexOutOfBounds(index: int)

  datatype Result<+T> = Ok(value: T) | Err(fault: Fault) {

    predicate IsFailure() {
      Err?
    }

    function PropagateFailure<U>(): Result<U>
      requires Err?
    {
      Err(fault)
    }

    function Extract(): T
      requires Ok?
    {
      value
    }
  }
}
