/** Option and a failure-compatible Result whose only failure is Python's `ValueError`,
    the exception `ctypes` raises when a structure is built from too few bytes. */
module Results {

  datatype Option<+T> = None | Some(value: T)

  datatype Result<+T> = Ok(value: T) | ValueError
  {
    predicate IsFailure() {
      ValueError?
    }

    function PropagateFailure<U>(): Result<U>
      requires ValueError?
    {
      ValueError
    }

    function Extract(): T
      requires Ok?
    {
      value
    }
  }
}
