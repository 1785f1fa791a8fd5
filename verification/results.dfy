/** Failure-compatible result type for the inspector. The C# code signals its
    two failure modes by throwing; the caller catches every exception and
    abandons the run, so an error here ends the whole inspection. */
module Results {

  /** The exceptions the inspector can raise. */
  datatype InspectError =
    | UnsupportedBasicType(name: string)  // a `_t` scalar with no entry in the basic-type map
    | DuplicateHandle(name: string)       // a handle name registered twice

  datatype Result<+T> = Ok(value: T) | Err(error: InspectError) {

    predicate IsFailure() {
      Err?
    }

    function PropagateFailure<U>(): Result<U>
      requires Err?
    {
      Err(error)
    }

    function Extract(): T
      requires Ok?
    {
      value
    }
  }
}
